/**
 * The JSON values the principal header carries, Jackson's tree-node reading of them,
 * and the library calls the pipeline makes into code outside this model.
 */
module Json {
  import opened Wrappers
  import opened JavaLang

  /** A parsed JSON value (RFC 8259). An object's members are the ones the parser kept
      (Jackson keeps the last of duplicate names); a number keeps its textual form. */
  datatype JsonValue =
    | JNull
    | JBool(b: bool)
    | JNumber(literal: string)
    | JString(text: string)
    | JArray(items: seq<JsonValue>)
    | JObject(members: map<string, JsonValue>)

  /** `JsonNode.path(name)`: the named member of an object node; `None` is the missing
      node, which is what any other node gives too. */
  function Path(node: JsonValue, name: string): (child: Option<JsonValue>)
    ensures child.Some? <==> node.JObject? && name in node.members
    ensures child.Some? ==> child.value == node.members[name]
  {
    if node.JObject? && name in node.members then Some(node.members[name]) else None
  }

  /** `JsonNode.asText()`: a string node's text, a scalar's literal, "null" for the null
      node, and "" for containers and the missing node. */
  function AsText(node: Option<JsonValue>): (text: string)
    ensures node.None? ==> text == ""
    ensures node == Some(JNull) ==> text == "null"
    ensures node.Some? && node.value.JString? ==> text == node.value.text
  {
    match node
    case None => ""
    case Some(JNull) => "null"
    case Some(JBool(b)) => if b then "true" else "false"
    case Some(JNumber(literal)) => literal
    case Some(JString(text)) => text
    case Some(JArray(_)) => ""
    case Some(JObject(_)) => ""
  }

  /** What Jackson's `readTree` makes of a text: it throws, it finds no content (only
      whitespace, or nothing) and returns the missing node, or it reads a value. */
  datatype TreeRead = Unreadable | NoContent | Tree(root: JsonValue)

  /** The runtime exceptions that can escape while a principal is read, other than the
      parser's own `InvalidPrincipalException`. */
  datatype Fault =
    | MalformedJson(text: string)                  // Jackson rejects the text
    | NoContentToMap(text: string)                 // `readValue` on text with no content
    | NotAnObject(value: JsonValue)                // not a JSON object (for `null`, a NullPointerException)
    | NotAString(field: string, value: JsonValue)  // ClassCastException on a `(String)` cast
    | NotAList(field: string, value: JsonValue)    // ClassCastException on a `(List)` cast

  /**
   * Library behaviour the pipeline calls but does not define:
   *  - `decodeUtf8`: `new String(bytes, UTF_8)`, total (malformed input becomes U+FFFD);
   *  - `readTree`: Jackson's `ObjectMapper.readTree(text)`;
   *  - `faultMessage`: `getMessage()` of the exception a fault raises.
   */
  datatype Runtime = Runtime(
    decodeUtf8: seq<byte> -> string,
    readTree: string -> TreeRead,
    faultMessage: Fault -> string)

  /** `readValue(text, Map.class)`: the same reading as `readTree`, except that text with
      no content is an error instead of the missing node. */
  function ReadValue(rt: Runtime, text: string): (r: Result<JsonValue, Fault>)
    ensures r.Ok? <==> rt.readTree(text).Tree?
    ensures r.Ok? ==> rt.readTree(text) == Tree(r.value)
    ensures rt.readTree(text).Unreadable? ==> r == Err(MalformedJson(text))
    ensures rt.readTree(text).NoContent? ==> r == Err(NoContentToMap(text))
  {
    match rt.readTree(text)
    case Unreadable => Err(MalformedJson(text))
    case NoContent => Err(NoContentToMap(text))
    case Tree(root) => Ok(root)
  }
}
