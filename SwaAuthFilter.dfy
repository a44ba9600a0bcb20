/**
 * The gateway's global filter. It reads `x-ms-client-principal`, decodes it without
 * validating it, and forwards the request with `X-User-Id` and `X-User-Name` set when
 * decoding succeeds. On any failure it forwards the request unchanged: it fails open
 * and never rejects.
 */
module SwaAuthFilter {
  import opened Wrappers
  import opened JavaLang
  import opened Json
  import Base64
  import PrincipalParser

  /** Request headers: each name with its list of values. */
  type Headers = map<string, seq<string>>

  const PrincipalHeader: string := "x-ms-client-principal"
  const UserIdHeader: string := "X-User-Id"
  const UserNameHeader: string := "X-User-Name"

  /** `HttpHeaders.getFirst(name)`. */
  function GetFirst(headers: Headers, name: string): (v: Option<string>)
    ensures v.Some? <==> name in headers && |headers[name]| > 0
    ensures v.Some? ==> v.value == headers[name][0]
  {
    if name in headers && |headers[name]| > 0 then Some(headers[name][0]) else None
  }

  /** The decoding inside the `try` block: Base64, UTF-8, `readTree`, then the text of
      `userId` and `userDetails` (`path(...).asText()`, so "" when a member is missing).
      Text with no content reads as the missing node, whose members are all missing.
      `None` is an exception caught by the filter. */
  function Identity(value: string, rt: Runtime): (identity: Option<(string, string)>)
    ensures identity.None? <==>
              Base64.Decode(value).None? || rt.readTree(rt.decodeUtf8(Base64.Decode(value).value)).Unreadable?
    ensures Base64.Decode(value).Some? && rt.readTree(rt.decodeUtf8(Base64.Decode(value).value)).NoContent? ==>
              identity == Some(("", ""))
  {
    match Base64.Decode(value)
    case None => None
    case Some(bytes) =>
      match rt.readTree(rt.decodeUtf8(bytes))
      case Unreadable => None
      case NoContent => Some((AsText(None), AsText(None)))
      case Tree(root) => Some((AsText(Path(root, "userId")), AsText(Path(root, "userDetails"))))
  }

  /** `SwaAuthFilter.filter`: the headers of the one request handed to the next filter in
      the chain. Every header other than the two identity headers passes through as it
      came, and the request is changed only when it carried the principal header. */
  function Filter(headers: Headers, rt: Runtime): (forwarded: Headers)
    ensures forall name :: name != UserIdHeader && name != UserNameHeader ==>
              (name in forwarded <==> name in headers)
              && (name in headers ==> forwarded[name] == headers[name])
    ensures forwarded != headers ==> GetFirst(headers, PrincipalHeader).Some?
  {
    match GetFirst(headers, PrincipalHeader)
    case None => headers
    case Some(value) =>
      match Identity(value, rt)
      case None => headers
      case Some((userId, userName)) => headers[UserIdHeader := [userId]][UserNameHeader := [userName]]
  }

  /** `getOrder`: the filter's position among the gateway's global filters; lower runs first. */
  function GetOrder(): (order: int)
    ensures order < 0
  {
    -1
  }

  // ----- Properties -----

  /** No principal header: the original request is forwarded, client-supplied identity
      headers included. */
  lemma FilterWithoutHeader(headers: Headers, rt: Runtime)
    requires GetFirst(headers, PrincipalHeader).None?
    ensures Filter(headers, rt) == headers
  {
  }

  /** A header the Base64 decoder or Jackson rejects: the original request is forwarded,
      so a spoofed `X-User-Id` survives. */
  lemma FilterFailsOpen(headers: Headers, rt: Runtime)
    requires GetFirst(headers, PrincipalHeader).Some?
    requires var bytes := Base64.Decode(GetFirst(headers, PrincipalHeader).value);
             bytes.None? || rt.readTree(rt.decodeUtf8(bytes.value)).Unreadable?
    ensures Filter(headers, rt) == headers
  {
  }

  /** Only `null` is checked, not blankness: a whitespace-only value is decoded, fails, and
      the request passes through unchanged. */
  lemma FilterWhitespaceHeader(headers: Headers, rt: Runtime)
    requires GetFirst(headers, PrincipalHeader).Some?
    requires var v := GetFirst(headers, PrincipalHeader).value; |v| > 0 && IsBlank(v)
    ensures Filter(headers, rt) == headers
  {
    var v := GetFirst(headers, PrincipalHeader).value;
    assert IsWhitespace(v[0]);
    Base64.DecodeRejectsForeignChar(v, 0);
  }

  /** A header that decodes to JSON: the forwarded request carries exactly one
      `X-User-Id` and one `X-User-Name`, the texts of `userId` and `userDetails`,
      replacing whatever the client sent under those names. */
  lemma FilterAddsIdentity(headers: Headers, bytes: seq<byte>, root: JsonValue, rt: Runtime)
    requires GetFirst(headers, PrincipalHeader).Some?
    requires Base64.Decode(GetFirst(headers, PrincipalHeader).value) == Some(bytes)
    requires rt.readTree(rt.decodeUtf8(bytes)) == Tree(root)
    ensures UserIdHeader in Filter(headers, rt) && UserNameHeader in Filter(headers, rt)
    ensures Filter(headers, rt)[UserIdHeader] == [AsText(Path(root, "userId"))]
    ensures Filter(headers, rt)[UserNameHeader] == [AsText(Path(root, "userDetails"))]
  {
  }

  /** `userId` is not validated: JSON without it still gets an `X-User-Id`, holding "",
      where the service-side parser rejects the same header. */
  lemma FilterForwardsEmptyUserId(headers: Headers, bytes: seq<byte>, members: map<string, JsonValue>, rt: Runtime)
    requires GetFirst(headers, PrincipalHeader).Some?
    requires !IsBlank(GetFirst(headers, PrincipalHeader).value)
    requires Base64.Decode(GetFirst(headers, PrincipalHeader).value) == Some(bytes)
    requires rt.readTree(rt.decodeUtf8(bytes)) == Tree(JObject(members)) && "userId" !in members
    ensures Filter(headers, rt)[UserIdHeader] == [""]
    ensures PrincipalParser.Parse(GetFirst(headers, PrincipalHeader), rt)
            == PrincipalParser.Invalid(PrincipalParser.MissingUserIdMessage)
  {
    FilterAddsIdentity(headers, bytes, JObject(members), rt);
  }

  /** The two tiers agree on every header the service accepts: the gateway forwards the
      parsed principal's id, and its `userDetails` when that is a string. */
  lemma FilterAgreesWithParser(headers: Headers, rt: Runtime)
    requires GetFirst(headers, PrincipalHeader).Some?
    requires PrincipalParser.Parse(GetFirst(headers, PrincipalHeader), rt).Parsed?
    ensures var p := PrincipalParser.Parse(GetFirst(headers, PrincipalHeader), rt).principal;
            && Filter(headers, rt)[UserIdHeader] == [p.userId]
            && (p.userDetails.Some? ==> Filter(headers, rt)[UserNameHeader] == [p.userDetails.value])
  {
    var h := GetFirst(headers, PrincipalHeader).value;
    PrincipalParser.ParsedFields(h, rt);
    var bytes := Base64.Decode(h).value;
    FilterAddsIdentity(headers, bytes, rt.readTree(rt.decodeUtf8(bytes)).root, rt);
  }

  /** Decoded text with no content (only whitespace): `readTree` gives the missing node,
      so the gateway forwards an empty `X-User-Id` and `X-User-Name`, while the service's
      `readValue` throws on the same text and the parser answers with the generic prefix. */
  lemma FilterNoContent(headers: Headers, bytes: seq<byte>, rt: Runtime)
    requires GetFirst(headers, PrincipalHeader).Some?
    requires Base64.Decode(GetFirst(headers, PrincipalHeader).value) == Some(bytes)
    requires rt.readTree(rt.decodeUtf8(bytes)).NoContent?
    ensures UserIdHeader in Filter(headers, rt) && UserNameHeader in Filter(headers, rt)
    ensures Filter(headers, rt)[UserIdHeader] == [""] && Filter(headers, rt)[UserNameHeader] == [""]
    ensures !IsBlank(GetFirst(headers, PrincipalHeader).value) ==>
              PrincipalParser.Parse(GetFirst(headers, PrincipalHeader), rt)
              == PrincipalParser.Invalid(PrincipalParser.ParseErrorPrefix
                                         + rt.faultMessage(NoContentToMap(rt.decodeUtf8(bytes))))
  {
  }

  /** The header "IA==" is the Base64 text of one space. Where UTF-8 reads that byte as
      " " and Jackson finds no content in it, the gateway forwards empty identity headers. */
  lemma SpaceHeaderForwardsEmptyIdentity(rt: Runtime)
    requires rt.decodeUtf8([32]) == " " && rt.readTree(" ").NoContent?
    ensures var forwarded := Filter(map[PrincipalHeader := ["IA=="]], rt);
            UserIdHeader in forwarded && forwarded[UserIdHeader] == [""]
    ensures PrincipalParser.Parse(Some("IA=="), rt)
            == PrincipalParser.Invalid(PrincipalParser.ParseErrorPrefix + rt.faultMessage(NoContentToMap(" ")))
  {
    var text := "IA==";
    assert Base64.IsAlphabetChar(text[0]) && Base64.IsAlphabetChar(text[1]) && !Base64.IsAlphabetChar(text[2]);
    assert Base64.Sextet(text[0]) == 8 && Base64.Sextet(text[1]) == 0;
    var q := Base64.Quantum(8, 0, 0, 0);
    assert q[..1] == [32];
    assert Base64.DecodeFinalUnit(text) == Some(q[..1]);
    assert Base64.Decode(text) == Some([32]);
    assert !IsBlank("IA==") by { assert !IsWhitespace("IA=="[0]); }
    FilterNoContent(map[PrincipalHeader := ["IA=="]], [32], rt);
  }
}
