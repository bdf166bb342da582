/** FastAPI dependencies (apps/api/src/dependencies.py): the optional-user
    lookup that turns every authentication failure into "no user", and the
    current-user lookup with its not-found guard. */
module Dependencies {

  import opened Wrappers
  import opened Http
  import opened Strings
  import opened AuthMiddleware
  import AuthService
  import Json

  const UserNotFoundDetail: string := "User not found"

  /** `get_optional_user`: no header, or one without the `Bearer ` prefix,
      gives None; otherwise the token `split(" ")[1]` is checked and any
      401 raised by the check becomes None. The result type has no error:
      the dependency never raises. */
  function GetOptionalUser(header: Option<string>, verifier: Verifier): (r: Option<Json.Value>)
    ensures header.None? || !StartsWith(header.value, BearerPrefix) ==> r.None?
    ensures header.Some? && StartsWith(header.value, BearerPrefix) ==>
      var token := ExtractTokenFromHeader(header).value;
      && (r.Some? <==> verifier(token).Some? && "sub" in verifier(token).value && Json.Truthy(verifier(token).value["sub"]))
      && (r.Some? ==> r.value == verifier(token).value["sub"])
  {
    if header.None? || header.value == "" || !StartsWith(header.value, BearerPrefix) then None
    else
      BearerToken(header.value);
      match GetCurrentUserId(SecondField(header.value), verifier)
      case Err(_) => None
      case Ok(id) => Some(id)
  }

  /** The optional lookup agrees with the header parser and the claim guard:
      it yields a user id exactly when a token is found and its `sub` passes. */
  lemma OptionalUserIsGuardedLookup(header: Option<string>, verifier: Verifier)
    ensures GetOptionalUser(header, verifier).Some? <==>
      ExtractTokenFromHeader(header).Some? && GetCurrentUserId(ExtractTokenFromHeader(header).value, verifier).Ok?
    ensures GetOptionalUser(header, verifier).Some? ==>
      GetOptionalUser(header, verifier).value == GetCurrentUserId(ExtractTokenFromHeader(header).value, verifier).value
  {
  }

  /** `get_current_user`: the claim guard, then the user whose id is the
      token's `sub`, else 401 "User not found". */
  function GetCurrentUser(token: string, verifier: Verifier, users: seq<AuthService.User>): (r: Result<AuthService.User, HttpError>)
    ensures r.Err? ==> r.error.status == Unauthorized
    ensures GetCurrentUserId(token, verifier).Err? ==> r == Err(GetCurrentUserId(token, verifier).error)
    ensures r.Ok? ==>
      && r.value in users
      && GetCurrentUserId(token, verifier) == Ok(Json.Str(r.value.id))
    ensures
      && GetCurrentUserId(token, verifier).Ok?
      && (forall k :: 0 <= k < |users| ==> GetCurrentUserId(token, verifier).value != Json.Str(users[k].id))
      ==> r == Err(HttpError(Unauthorized, UserNotFoundDetail))
  {
    match GetCurrentUserId(token, verifier)
    case Err(e) => Err(e)
    case Ok(sub) =>
      if !sub.Str? then Err(HttpError(Unauthorized, UserNotFoundDetail))
      else
        var i := AuthService.FindById(users, sub.s);
        if i == |users| then Err(HttpError(Unauthorized, UserNotFoundDetail))
        else Ok(users[i])
  }

  /** A token whose `sub` names a stored user yields that user; with unique
      ids it is the only one it can yield. */
  lemma CurrentUserFound(token: string, verifier: Verifier, users: seq<AuthService.User>, k: nat)
    requires k < |users|
    requires forall i, j :: 0 <= i < j < |users| ==> users[i].id != users[j].id
    requires GetCurrentUserId(token, verifier) == Ok(Json.Str(users[k].id))
    ensures GetCurrentUser(token, verifier, users) == Ok(users[k])
  {
    var i := AuthService.FindById(users, users[k].id);
    assert i <= k;
  }
}
