/** Authentication schemas (apps/api/src/schemas/auth.py). The `EmailStr`
    check on e-mail fields belongs to pydantic and is not part of this model;
    e-mails are plain strings here. */
module AuthSchema {

  import opened Wrappers

  const DefaultTokenType: string := "bearer"

  datatype UserCreate = UserCreate(email: string, password: string, fullName: Option<string>) {
    predicate Valid() {
      8 <= |password| <= 100 && (fullName.None? || |fullName.value| <= 255)
    }
  }

  /** `UserLogin` puts no bound on the password: any string is accepted and
      the password check decides. */
  datatype UserLogin = UserLogin(email: string, password: string)

  datatype TokenResponse = TokenResponse(accessToken: string, refreshToken: Option<string>, tokenType: string, expiresIn: int)

  /** A token response built without naming `token_type`. */
  function NewTokenResponse(accessToken: string, refreshToken: Option<string>, expiresIn: int): (r: TokenResponse)
    ensures r.tokenType == DefaultTokenType
    ensures r.accessToken == accessToken && r.refreshToken == refreshToken && r.expiresIn == expiresIn
  {
    TokenResponse(accessToken, refreshToken, DefaultTokenType, expiresIn)
  }

  datatype UserUpdate = UserUpdate(fullName: Option<string>, encryptedApiKeys: Option<map<string, string>>) {
    predicate Valid() {
      fullName.None? || |fullName.value| <= 255
    }
  }

  /** The password bounds of registration: eight characters are the least,
      a hundred the most, and the name may be left out. */
  lemma UserCreateBounds(email: string, password: string)
    ensures UserCreate(email, password, None).Valid() <==> 8 <= |password| <= 100
    ensures forall name: Option<string> :: |password| < 8 || |password| > 100 ==> !UserCreate(email, password, name).Valid()
  {
  }
}
