/** JWT authentication middleware (apps/api/src/middleware/auth.py): the
    Authorization header parser and the guards on the decoded claims.

    Signature checking and decoding (`verify_token` in
    apps/api/src/utils/jwt.py) are not part of this model: they are the
    parameter `verifier`, a partial function from a token to its claims. */
module AuthMiddleware {

  import opened Wrappers
  import opened Http
  import opened Strings
  import Json

  type Payload = Json.Object

  /** `verify_token`: the claims of a well-signed, unexpired token, else None. */
  type Verifier = string -> Option<Payload>

  const BearerPrefix: string := "Bearer "

  const InvalidTokenDetail: string := "Invalid or expired token"
  const MissingUserIdDetail: string := "User ID not found in token"
  const MissingTenantIdDetail: string := "Tenant ID not found in token"

  /** `verify_jwt_token`: a 401 unless the verifier yields a non-empty payload. */
  function VerifyJwtToken(token: string, verifier: Verifier): (r: Result<Payload, HttpError>)
    ensures r.Ok? <==> verifier(token).Some? && |verifier(token).value| > 0
    ensures r.Ok? ==> r.value == verifier(token).value
    ensures r.Err? ==> r.error == HttpError(Unauthorized, InvalidTokenDetail)
  {
    match verifier(token)
    case None => Err(HttpError(Unauthorized, InvalidTokenDetail))
    case Some(payload) =>
      if |payload| == 0 then Err(HttpError(Unauthorized, InvalidTokenDetail)) else Ok(payload)
  }

  /** `payload.get(claim)` followed by `if not value: raise 401`. */
  function RequireClaim(token: string, verifier: Verifier, claim: string, detail: string): (r: Result<Json.Value, HttpError>)
    ensures r.Ok? <==>
      && VerifyJwtToken(token, verifier).Ok?
      && claim in verifier(token).value
      && Json.Truthy(verifier(token).value[claim])
    ensures r.Ok? ==> r.value == verifier(token).value[claim]
    ensures r.Err? ==> r.error.status == Unauthorized
    ensures r.Err? && VerifyJwtToken(token, verifier).Ok? ==> r.error.detail == detail
  {
    match VerifyJwtToken(token, verifier)
    case Err(e) => Err(e)
    case Ok(payload) =>
      if claim in payload && Json.Truthy(payload[claim]) then Ok(payload[claim])
      else Err(HttpError(Unauthorized, detail))
  }

  /** `get_current_user_id`: the `sub` claim, which must be present and truthy. */
  function GetCurrentUserId(token: string, verifier: Verifier): (r: Result<Json.Value, HttpError>)
    ensures r.Ok? <==> verifier(token).Some? && "sub" in verifier(token).value && Json.Truthy(verifier(token).value["sub"])
    ensures r.Ok? ==> r.value == verifier(token).value["sub"]
    ensures r.Err? ==> r.error.status == Unauthorized
    ensures r.Err? && VerifyJwtToken(token, verifier).Ok? ==> r.error.detail == MissingUserIdDetail
    ensures r.Err? && VerifyJwtToken(token, verifier).Err? ==> r.error.detail == InvalidTokenDetail
  {
    RequireClaim(token, verifier, "sub", MissingUserIdDetail)
  }

  /** `get_current_tenant_id`: the `tenant_id` claim, likewise. */
  function GetCurrentTenantId(token: string, verifier: Verifier): (r: Result<Json.Value, HttpError>)
    ensures r.Ok? <==> verifier(token).Some? && "tenant_id" in verifier(token).value && Json.Truthy(verifier(token).value["tenant_id"])
    ensures r.Ok? ==> r.value == verifier(token).value["tenant_id"]
    ensures r.Err? ==> r.error.status == Unauthorized
    ensures r.Err? && VerifyJwtToken(token, verifier).Ok? ==> r.error.detail == MissingTenantIdDetail
    ensures r.Err? && VerifyJwtToken(token, verifier).Err? ==> r.error.detail == InvalidTokenDetail
  {
    RequireClaim(token, verifier, "tenant_id", MissingTenantIdDetail)
  }

  /** A token whose `sub` is missing or empty is refused with 401, and a
      present non-empty `sub` is returned as it is. */
  lemma UserIdGuard(token: string, verifier: Verifier, payload: Payload)
    requires verifier(token) == Some(payload)
    ensures "sub" !in payload || payload["sub"] == Json.Str("") ==> GetCurrentUserId(token, verifier).Err?
    ensures "sub" !in payload ==> GetCurrentUserId(token, verifier).error.status == Unauthorized
    ensures forall id: string :: "sub" in payload && payload["sub"] == Json.Str(id) && id != "" ==>
      GetCurrentUserId(token, verifier) == Ok(Json.Str(id))
  {
  }

  /** `auth_header.split(" ")[1]`: what follows the first space, up to the
      next space. */
  function SecondField(header: string): (field: string)
    requires ' ' in header
  {
    Split(header, ' ')[1]
  }

  /** `extract_token_from_header`. */
  function ExtractTokenFromHeader(header: Option<string>): (r: Option<string>)
    ensures header.None? ==> r.None?
    ensures header.Some? && !StartsWith(header.value, BearerPrefix) ==> r.None?
    ensures header.Some? && StartsWith(header.value, BearerPrefix) ==>
      var rest := header.value[|BearerPrefix|..];
      && r.Some?
      && StartsWith(rest, r.value)
      && ' ' !in r.value
      && (|r.value| == |rest| || rest[|r.value|] == ' ')
  {
    if header.None? || header.value == "" || !StartsWith(header.value, BearerPrefix) then None
    else
      BearerToken(header.value);
      Some(SecondField(header.value))
  }

  /** After the `Bearer ` prefix, field 1 of the split is the longest
      space-free prefix of the rest. It always exists. */
  lemma BearerToken(header: string)
    requires StartsWith(header, BearerPrefix)
    ensures ' ' in header
    ensures var rest := header[|BearerPrefix|..];
      var t := SecondField(header);
      && StartsWith(rest, t) && ' ' !in t && (|t| == |rest| || rest[|t|] == ' ')
  {
    var rest := header[|BearerPrefix|..];
    assert header == "Bearer" + [' '] + rest;
    assert header[6] == ' ';
    SplitAfterHead("Bearer", ' ', rest);
    var t := Split(rest, ' ')[0];
    assert t == rest[..IndexOf(rest, ' ')];
  }

  lemma ExtractTokenEmptyAfterPrefix()
    ensures ExtractTokenFromHeader(Some("Bearer ")) == Some("")
  {
    var r := ExtractTokenFromHeader(Some("Bearer "));
    assert "Bearer "[|BearerPrefix|..] == "";
  }

  lemma ExtractTokenStopsAtSpace()
    ensures ExtractTokenFromHeader(Some("Bearer a b")) == Some("a")
  {
    var h := "Bearer a b";
    assert StartsWith(h, BearerPrefix);
    assert h == "Bearer" + [' '] + ("a" + [' '] + "b");
    SplitAfterHead("Bearer", ' ', "a" + [' '] + "b");
    SplitAfterHead("a", ' ', "b");
  }

  lemma ExtractTokenDoubleSpace()
    ensures ExtractTokenFromHeader(Some("Bearer  a")) == Some("")
  {
    var r := ExtractTokenFromHeader(Some("Bearer  a"));
    var rest := "Bearer  a"[|BearerPrefix|..];
    assert rest == " a";
    assert rest[0] == ' ';
  }

  /** The prefix is case-sensitive. */
  lemma ExtractTokenLowerCaseScheme()
    ensures ExtractTokenFromHeader(Some("bearer a")) == None
  {
    assert "bearer a"[..|BearerPrefix|] != BearerPrefix by {
      assert "bearer a"[0] != BearerPrefix[0];
    }
  }
}
