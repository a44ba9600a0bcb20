/**
 * Decoding of the `x-ms-client-principal` header: Base64 text, then UTF-8, then a JSON
 * object, then field extraction. The result is a principal or one of the two classified
 * failures, Missing and Invalid.
 */
module PrincipalParser {
  import opened Wrappers
  import opened JavaLang
  import opened Json
  import Base64

  const MissingHeaderMessage: string := "Header x-ms-client-principal mancante"
  const NotBase64Message: string := "Header non è un Base64 valido"
  const MissingUserIdMessage: string := "userId mancante nel principal"
  const ParseErrorPrefix: string := "Errore nel parsing del principal: "

  /** The identity the edge platform vouches for. `userRoles` holds the JSON array's items
      as they are: their types are never checked; `None` is a JSON `null`. */
  datatype ClientPrincipal = ClientPrincipal(
    userId: string,
    userDetails: Option<string>,
    identityProvider: Option<string>,
    userRoles: Option<seq<JsonValue>>)

  datatype ParseResult =
    | Parsed(principal: ClientPrincipal)
    | Missing(message: string)
    | Invalid(message: string)

  /** What the `try` block can throw. */
  datatype Thrown =
    | IllegalArgument                       // from the Base64 decoder
    | InvalidPrincipalThrown(message: string)
    | Other(fault: Fault)

  /** `(String) map.get(key)`: absent and JSON `null` both read as `null`. */
  function StringMember(members: map<string, JsonValue>, key: string): (r: Result<Option<string>, Thrown>)
    ensures r == Ok(None) <==> key !in members || members[key] == JNull
    ensures forall t :: r == Ok(Some(t)) <==> key in members && members[key] == JString(t)
  {
    if key !in members then Ok(None)
    else match members[key]
      case JNull => Ok(None)
      case JString(t) => Ok(Some(t))
      case other => Err(Other(NotAString(key, other)))
  }

  /** `(List<String>) map.getOrDefault("userRoles", List.of())`. */
  function RolesMember(members: map<string, JsonValue>): (r: Result<Option<seq<JsonValue>>, Thrown>)
    ensures "userRoles" !in members ==> r == Ok(Some([]))
    ensures "userRoles" in members && members["userRoles"] == JNull ==> r == Ok(None)
    ensures "userRoles" in members && members["userRoles"].JArray? ==> r == Ok(Some(members["userRoles"].items))
    ensures "userRoles" in members && !members["userRoles"].JArray? && members["userRoles"] != JNull ==>
              r == Err(Other(NotAList("userRoles", members["userRoles"])))
  {
    if "userRoles" !in members then Ok(Some([]))
    else match members["userRoles"]
      case JNull => Ok(None)
      case JArray(items) => Ok(Some(items))
      case other => Err(Other(NotAList("userRoles", other)))
  }

  /** Steps 3 to 6 after Jackson has read the text: the map, `userId` (required),
      `userRoles`, `userDetails` and `identityProvider`, in the order they are read. */
  function Extract(root: JsonValue): (r: Result<ClientPrincipal, Thrown>)
    ensures !root.JObject? ==> r == Err(Other(NotAnObject(root)))
    ensures r.Ok? ==> root.JObject? && "userId" in root.members
                      && root.members["userId"] == JString(r.value.userId) && !IsBlank(r.value.userId)
    ensures r != Err(IllegalArgument)
  {
    if !root.JObject? then Err(Other(NotAnObject(root)))
    else
      var userId :- StringMember(root.members, "userId");
      if userId.None? || IsBlank(userId.value) then Err(InvalidPrincipalThrown(MissingUserIdMessage))
      else
        var roles :- RolesMember(root.members);
        var details :- StringMember(root.members, "userDetails");
        var provider :- StringMember(root.members, "identityProvider");
        Ok(ClientPrincipal(userId.value, details, provider, roles))
  }

  /** The body of the `try` block. */
  function TryDecode(header: string, rt: Runtime): (r: Result<ClientPrincipal, Thrown>)
    ensures r == Err(IllegalArgument) <==> Base64.Decode(header).None?
  {
    match Base64.Decode(header)
    case None => Err(IllegalArgument)
    case Some(bytes) =>
      match ReadValue(rt, rt.decodeUtf8(bytes))
      case Err(fault) => Err(Other(fault))
      case Ok(root) => Extract(root)
  }

  /** `PrincipalParser.parse`: the blank check, then the `try` block, whose exceptions the
      `catch` clauses classify. */
  function Parse(header: Option<string>, rt: Runtime): (r: ParseResult)
    ensures r.Missing? <==> header.None? || IsBlank(header.value)
    ensures r.Missing? ==> r.message == MissingHeaderMessage
    ensures r.Parsed? ==> !IsBlank(r.principal.userId)
    ensures r.Invalid? ==>
              || r.message == NotBase64Message
              || r.message == MissingUserIdMessage
              || ParseErrorPrefix <= r.message
  {
    if header.None? || IsBlank(header.value) then Missing(MissingHeaderMessage)
    else match TryDecode(header.value, rt)
      case Ok(principal) => Parsed(principal)
      case Err(IllegalArgument) => Invalid(NotBase64Message)
      case Err(InvalidPrincipalThrown(message)) => Invalid(message)
      case Err(Other(fault)) => Invalid(ParseErrorPrefix + rt.faultMessage(fault))
  }

  // ----- The three Invalid messages are told apart by their first character -----

  lemma GenericMessagesAreDistinct(detail: string)
    ensures ParseErrorPrefix + detail != NotBase64Message
    ensures ParseErrorPrefix + detail != MissingUserIdMessage
  {
    assert (ParseErrorPrefix + detail)[0] == 'E';
    assert NotBase64Message[0] == 'H' && MissingUserIdMessage[0] == 'u';
  }

  // ----- Properties of Parse -----

  /** A non-blank header is rejected as "not Base64" exactly when the decoder rejects it. */
  lemma ParseNotBase64(header: string, rt: Runtime)
    requires !IsBlank(header)
    ensures Parse(Some(header), rt) == Invalid(NotBase64Message) <==> Base64.Decode(header).None?
  {
    match TryDecode(header, rt)
    case Err(Other(fault)) => GenericMessagesAreDistinct(rt.faultMessage(fault));
    case _ =>
  }

  /** Nothing is trimmed: a non-blank header with whitespace at either end is not Base64. */
  lemma ParseSurroundingWhitespace(header: string, rt: Runtime)
    requires !IsBlank(header)
    requires IsWhitespace(header[0]) || IsWhitespace(header[|header| - 1])
    ensures Parse(Some(header), rt) == Invalid(NotBase64Message)
  {
    var i := if IsWhitespace(header[0]) then 0 else |header| - 1;
    Base64.DecodeRejectsForeignChar(header, i);
  }

  /** Text Jackson rejects, text with no content, and JSON that is not an object (an
      array, a scalar, `null`) are Invalid with the generic prefix and the message of the
      exception each one raises. */
  lemma ParseNotAnObject(header: string, bytes: seq<byte>, rt: Runtime)
    requires !IsBlank(header) && Base64.Decode(header) == Some(bytes)
    requires var read := rt.readTree(rt.decodeUtf8(bytes)); !read.Tree? || !read.root.JObject?
    ensures var json := rt.decodeUtf8(bytes);
            var message := Parse(Some(header), rt).message;
            && Parse(Some(header), rt).Invalid?
            && (rt.readTree(json).Unreadable? ==> message == ParseErrorPrefix + rt.faultMessage(MalformedJson(json)))
            && (rt.readTree(json).NoContent? ==> message == ParseErrorPrefix + rt.faultMessage(NoContentToMap(json)))
            && (rt.readTree(json).Tree? ==>
                  message == ParseErrorPrefix + rt.faultMessage(NotAnObject(rt.readTree(json).root)))
  {
  }

  /** An absent, `null` or blank `userId` gives exactly the "userId mancante" message,
      whatever the other members hold. */
  lemma ParseUserIdMissing(header: string, bytes: seq<byte>, members: map<string, JsonValue>, rt: Runtime)
    requires !IsBlank(header) && Base64.Decode(header) == Some(bytes)
    requires rt.readTree(rt.decodeUtf8(bytes)) == Tree(JObject(members))
    requires "userId" !in members || members["userId"] == JNull
             || (members["userId"].JString? && IsBlank(members["userId"].text))
    ensures Parse(Some(header), rt) == Invalid(MissingUserIdMessage)
  {
  }

  /** A `userId` that is present but neither a string nor `null` is not treated as absent:
      it is a cast failure with the generic prefix. */
  lemma ParseUserIdWrongType(header: string, bytes: seq<byte>, members: map<string, JsonValue>, rt: Runtime)
    requires !IsBlank(header) && Base64.Decode(header) == Some(bytes)
    requires rt.readTree(rt.decodeUtf8(bytes)) == Tree(JObject(members))
    requires "userId" in members && !members["userId"].JString? && members["userId"] != JNull
    ensures Parse(Some(header), rt)
            == Invalid(ParseErrorPrefix + rt.faultMessage(NotAString("userId", members["userId"])))
  {
  }

  /** With a good `userId` and `userRoles`, a non-string `userDetails` or
      `identityProvider` is an error, not an absent value. */
  lemma ParseOptionalFieldWrongType(header: string, bytes: seq<byte>, members: map<string, JsonValue>,
                                    key: string, rt: Runtime)
    requires !IsBlank(header) && Base64.Decode(header) == Some(bytes)
    requires rt.readTree(rt.decodeUtf8(bytes)) == Tree(JObject(members))
    requires "userId" in members && members["userId"].JString? && !IsBlank(members["userId"].text)
    requires "userRoles" !in members || members["userRoles"].JArray? || members["userRoles"] == JNull
    requires key == "userDetails" || key == "identityProvider"
    requires key in members && !members[key].JString? && members[key] != JNull
    requires key == "identityProvider" ==>
               "userDetails" !in members || members["userDetails"].JString? || members["userDetails"] == JNull
    ensures Parse(Some(header), rt).Invalid?
    ensures ParseErrorPrefix <= Parse(Some(header), rt).message
  {
  }

  /** `userRoles`: absent gives the empty list, an array is passed through element by
      element unchecked, `null` gives null roles, anything else is a cast failure. */
  lemma ParseRoles(header: string, bytes: seq<byte>, members: map<string, JsonValue>, rt: Runtime)
    requires !IsBlank(header) && Base64.Decode(header) == Some(bytes)
    requires rt.readTree(rt.decodeUtf8(bytes)) == Tree(JObject(members))
    requires "userId" in members && members["userId"].JString? && !IsBlank(members["userId"].text)
    requires forall key :: key in members && (key == "userDetails" || key == "identityProvider") ==>
               members[key].JString? || members[key] == JNull
    ensures "userRoles" !in members ==>
              Parse(Some(header), rt).Parsed? && Parse(Some(header), rt).principal.userRoles == Some([])
    ensures "userRoles" in members && members["userRoles"].JArray? ==>
              Parse(Some(header), rt).Parsed?
              && Parse(Some(header), rt).principal.userRoles == Some(members["userRoles"].items)
    ensures "userRoles" in members && members["userRoles"] == JNull ==>
              Parse(Some(header), rt).Parsed? && Parse(Some(header), rt).principal.userRoles == None
    ensures "userRoles" in members && !members["userRoles"].JArray? && members["userRoles"] != JNull ==>
              Parse(Some(header), rt)
              == Invalid(ParseErrorPrefix + rt.faultMessage(NotAList("userRoles", members["userRoles"])))
  {
    var ud := StringMember(members, "userDetails");
    var ip := StringMember(members, "identityProvider");
    assert ud.Ok? && ip.Ok?;
  }

  /** What a successful parse read: the decoded header is a JSON object whose `userId` is
      the principal's non-blank id and whose other members give the optional fields. */
  lemma ParsedFields(header: string, rt: Runtime)
    requires Parse(Some(header), rt).Parsed?
    ensures var p := Parse(Some(header), rt).principal;
            && Base64.Decode(header).Some?
            && var read := rt.readTree(rt.decodeUtf8(Base64.Decode(header).value));
            && read.Tree? && read.root.JObject?
            && var m := read.root.members;
            && "userId" in m && m["userId"] == JString(p.userId) && !IsBlank(p.userId)
            && (forall d :: p.userDetails == Some(d) <==> "userDetails" in m && m["userDetails"] == JString(d))
            && (forall d :: p.identityProvider == Some(d) <==> "identityProvider" in m && m["identityProvider"] == JString(d))
            && (p.userRoles == Some([]) <== "userRoles" !in m)
  {
    var bytes := Base64.Decode(header).value;
    var root := rt.readTree(rt.decodeUtf8(bytes)).root;
    assert Extract(root).Ok?;
  }

  // ----- Round trip -----

  function OptionalText(v: Option<string>): JsonValue
  {
    if v.Some? then JString(v.value) else JNull
  }

  /** The JSON object the edge platform writes for a principal. */
  function ToJson(p: ClientPrincipal): JsonValue
  {
    JObject(map[
      "userId" := JString(p.userId),
      "userDetails" := OptionalText(p.userDetails),
      "identityProvider" := OptionalText(p.identityProvider),
      "userRoles" := if p.userRoles.Some? then JArray(p.userRoles.value) else JNull])
  }

  /** Field extraction inverts `ToJson`. */
  lemma ExtractToJson(p: ClientPrincipal)
    requires !IsBlank(p.userId)
    ensures Extract(ToJson(p)) == Ok(p)
  {
    var m := ToJson(p).members;
    assert m["userId"] == JString(p.userId);
    assert StringMember(m, "userId") == Ok(Some(p.userId));
    assert m["userRoles"] == if p.userRoles.Some? then JArray(p.userRoles.value) else JNull;
    assert RolesMember(m) == Ok(p.userRoles);
    assert m["userDetails"] == OptionalText(p.userDetails);
    assert StringMember(m, "userDetails") == Ok(p.userDetails);
    assert m["identityProvider"] == OptionalText(p.identityProvider);
    assert StringMember(m, "identityProvider") == Ok(p.identityProvider);
  }

  /** A header that decodes to a readable object goes through to field extraction. */
  lemma ParseDecodable(header: string, bytes: seq<byte>, root: JsonValue, rt: Runtime)
    requires !IsBlank(header) && Base64.Decode(header) == Some(bytes)
    requires rt.readTree(rt.decodeUtf8(bytes)) == Tree(root) && Extract(root).Ok?
    ensures Parse(Some(header), rt) == Parsed(Extract(root).value)
  {
  }

  /** Decoding the Base64 encoding of a principal-shaped JSON object recovers the
      principal, field by field. */
  lemma ParseRoundTrip(p: ClientPrincipal, bytes: seq<byte>, rt: Runtime)
    requires !IsBlank(p.userId)
    requires |bytes| > 0 && rt.readTree(rt.decodeUtf8(bytes)) == Tree(ToJson(p))
    ensures Parse(Some(Base64.Encode(bytes)), rt) == Parsed(p)
  {
    Base64.DecodeEncode(bytes);
    Base64.EncodeNotBlank(bytes);
    ExtractToJson(p);
    ParseDecodable(Base64.Encode(bytes), bytes, ToJson(p), rt);
  }
}
