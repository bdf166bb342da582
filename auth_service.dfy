/** Password truncation, hashing and the user operations of the
    authentication service (apps/api/src/services/auth_service.py).

    bcrypt is an injective function of the (truncated) password, modelled as
    the constructor `Bcrypt`; its salt and cost are not part of this model.
    Token signing (apps/api/src/utils/jwt.py) is the parameter `sign`. */
module Utf8 {

  newtype Byte = x: int | 0 <= x < 256

  /** Bytes UTF-8 uses for one Unicode scalar value. */
  function Width(c: char): (n: nat)
    ensures 1 <= n <= 4
  {
    var v := c as int;
    if v < 0x80 then 1 else if v < 0x800 then 2 else if v < 0x10000 then 3 else 4
  }

  /** `c.encode('utf-8')`. */
  function EncodeChar(c: char): (bytes: seq<Byte>)
    ensures |bytes| == Width(c)
  {
    var v := c as int;
    if v < 0x80 then [v as Byte]
    else if v < 0x800 then [(0xC0 + v / 64) as Byte, (0x80 + v % 64) as Byte]
    else if v < 0x10000 then
      [(0xE0 + v / 4096) as Byte, (0x80 + (v / 64) % 64) as Byte, (0x80 + v % 64) as Byte]
    else
      [(0xF0 + v / 262144) as Byte, (0x80 + (v / 4096) % 64) as Byte,
       (0x80 + (v / 64) % 64) as Byte, (0x80 + v % 64) as Byte]
  }

  /** `s.encode('utf-8')`. */
  function Encode(s: string): (bytes: seq<Byte>)
    ensures |bytes| == EncodedLength(s)
  {
    if |s| == 0 then [] else EncodeChar(s[0]) + Encode(s[1..])
  }

  function EncodedLength(s: string): nat {
    if |s| == 0 then 0 else Width(s[0]) + EncodedLength(s[1..])
  }

  lemma {:induction false} EncodeAppend(a: string, b: string)
    ensures Encode(a + b) == Encode(a) + Encode(b)
    ensures EncodedLength(a + b) == EncodedLength(a) + EncodedLength(b)
  {
    if |a| == 0 {
      assert a + b == b;
    } else {
      assert (a + b)[1..] == a[1..] + b;
      EncodeAppend(a[1..], b);
    }
  }

  /** The longest prefix of `s` whose encoding fits in `budget` bytes. */
  function Truncate(s: string, budget: nat): (r: string)
    ensures |r| <= |s| && r == s[..|r|]
    ensures EncodedLength(r) <= budget
    ensures |r| < |s| ==> EncodedLength(r) + Width(s[|r|]) > budget
  {
    if |s| == 0 || Width(s[0]) > budget then []
    else [s[0]] + Truncate(s[1..], budget - Width(s[0]))
  }

  /** No longer prefix fits: every prefix past the cut is over budget. */
  lemma TruncateIsLongest(s: string, budget: nat, k: nat)
    requires |Truncate(s, budget)| < k <= |s|
    ensures EncodedLength(s[..k]) > budget
  {
    var r := Truncate(s, budget);
    assert s[..k] == r + [s[|r|]] + s[|r| + 1..k];
    EncodeAppend(r + [s[|r|]], s[|r| + 1..k]);
    EncodeAppend(r, [s[|r|]]);
  }

  /** A string that already fits is kept whole. */
  lemma {:induction false} TruncateFits(s: string, budget: nat)
    ensures EncodedLength(s) <= budget ==> Truncate(s, budget) == s
  {
    var r := Truncate(s, budget);
    assert s[..|s|] == s;
    if EncodedLength(s) <= budget && |r| < |s| {
      TruncateIsLongest(s, budget, |s|);
    }
  }

  /** Once the prefix `common` exhausts the budget, what follows it is
      never looked at. */
  lemma {:induction false} TruncateIgnoresTail(common: string, tail: string, budget: nat)
    requires EncodedLength(common) >= budget
    ensures Truncate(common + tail, budget) == Truncate(common, budget)
    decreases |common|
  {
    if |common| == 0 {
      if |tail| > 0 {
        assert (common + tail)[0] == tail[0];
      }
    } else {
      var s := common + tail;
      assert s[0] == common[0] && s[1..] == common[1..] + tail;
      if Width(common[0]) <= budget {
        TruncateIgnoresTail(common[1..], tail, budget - Width(common[0]));
      }
    }
  }

  /** A cut that falls inside the middle piece of a concatenation. */
  lemma CutInMiddle(a: seq<Byte>, b: seq<Byte>, c: seq<Byte>, n: nat)
    requires |a| <= n <= |a| + |b|
    ensures (a + b + c)[..n] == a + b[..n - |a|]
  {
    assert forall k :: 0 <= k < n ==> (a + b + c)[k] == (a + b[..n - |a|])[k];
  }

  /** `s.encode('utf-8')[:budget]` is the encoding of the truncated string
      followed by fewer bytes than one more character needs: exactly the
      incomplete sequence that `decode(errors='ignore')` drops. */
  lemma CutBytes(s: string, budget: nat)
    requires EncodedLength(s) > budget
    ensures var r := Truncate(s, budget);
      && |r| < |s|
      && Encode(s)[..budget] == Encode(r) + EncodeChar(s[|r|])[..budget - EncodedLength(r)]
      && budget - EncodedLength(r) < Width(s[|r|])
  {
    var r := Truncate(s, budget);
    assert s[..|s|] == s;
    EncodeAround(s, |r|);
    CutInMiddle(Encode(r), EncodeChar(s[|r|]), Encode(s[|r| + 1..]), budget);
  }

  /** The encoding of a string around its character at `i`. */
  lemma EncodeAround(s: string, i: nat)
    requires i < |s|
    ensures Encode(s) == Encode(s[..i]) + EncodeChar(s[i]) + Encode(s[i + 1..])
  {
    var suffix := s[i..];
    assert s == s[..i] + suffix;
    EncodeAppend(s[..i], suffix);
    assert suffix[0] == s[i] && suffix[1..] == s[i + 1..];
  }
}

module AuthService {

  import opened Wrappers
  import opened AuthSchema
  import Utf8
  import Json

  type Timestamp = int

  /** bcrypt's input limit; longer passwords are cut before hashing. */
  const BcryptMaxBytes: nat := 72

  /** `password.encode('utf-8')[:72].decode('utf-8', errors='ignore')`. */
  function TruncatePassword(password: string): (r: string)
    ensures Utf8.EncodedLength(r) <= BcryptMaxBytes
    ensures |r| <= |password| && r == password[..|r|]
    ensures Utf8.EncodedLength(password) <= BcryptMaxBytes ==> r == password
  {
    Utf8.TruncateFits(password, BcryptMaxBytes);
    Utf8.Truncate(password, BcryptMaxBytes)
  }

  /** A bcrypt hash, identified with the truncated secret it was made from. */
  datatype PasswordHash = Bcrypt(secret: string)

  /** `hash_password`. */
  function HashPassword(password: string): PasswordHash {
    Bcrypt(TruncatePassword(password))
  }

  /** `verify_password`: the same truncation, then the bcrypt check. */
  function VerifyPassword(plain: string, hashed: PasswordHash): bool {
    hashed == Bcrypt(TruncatePassword(plain))
  }

  /** A password verifies against its own hash, and another password
      verifies exactly when the two agree after truncation. */
  lemma VerifyAgainstHash(password: string, other: string)
    ensures VerifyPassword(password, HashPassword(password))
    ensures VerifyPassword(other, HashPassword(password)) <==> TruncatePassword(other) == TruncatePassword(password)
  {
  }

  /** Two passwords sharing a prefix of at least 72 UTF-8 bytes verify
      against each other's hash, whatever follows. */
  lemma SharedPrefixVerifies(common: string, x: string, y: string)
    requires Utf8.EncodedLength(common) >= BcryptMaxBytes
    ensures VerifyPassword(common + x, HashPassword(common + y))
  {
    Utf8.TruncateIgnoresTail(common, x, BcryptMaxBytes);
    Utf8.TruncateIgnoresTail(common, y, BcryptMaxBytes);
  }

  // ---------------------------------------------------------------------
  // Users
  // ---------------------------------------------------------------------

  datatype User = User(
    id: string,
    email: string,
    passwordHash: PasswordHash,
    fullName: Option<string>,
    tenantId: string,
    isActive: bool,
    isVerified: bool,
    encryptedApiKeys: map<string, string>,
    lastLogin: Option<Timestamp>)

  /** The position of the first user whose `key` is `value`, or `|users|`
      when there is none: `select(User).where(...)` over one column. */
  function IndexOfFirst(users: seq<User>, key: User -> string, value: string): (i: nat)
    ensures i <= |users|
    ensures i < |users| ==> key(users[i]) == value
    ensures forall k :: 0 <= k < i ==> key(users[k]) != value
  {
    if |users| == 0 then 0
    else if key(users[0]) == value then 0
    else 1 + IndexOfFirst(users[1..], key, value)
  }

  /** `get_user_by_email`. */
  function FindByEmail(users: seq<User>, email: string): nat {
    IndexOfFirst(users, (u: User) => u.email, email)
  }

  /** `get_user_by_id`. */
  function FindById(users: seq<User>, id: string): nat {
    IndexOfFirst(users, (u: User) => u.id, id)
  }

  /** The unique constraint on `users.email`. */
  predicate EmailsUnique(users: seq<User>) {
    forall i, j :: 0 <= i < j < |users| ==> users[i].email != users[j].email
  }

  /** No user before position `k` has the e-mail of `users[k]`. */
  predicate FirstWithEmail(users: seq<User>, k: nat)
    requires k < |users|
  {
    forall j :: 0 <= j < k ==> users[j].email != users[k].email
  }

  const InvalidCredentialsMessage: string := "Invalid email or password"
  const AccountDisabledMessage: string := "User account is disabled"
  const DuplicateEmailMessage: string := "User with this email already exists"

  /** The checks of `login`, in order: unknown e-mail, wrong password (both
      with the same message), then a disabled account. On success, the
      position of the user. */
  function CheckLogin(users: seq<User>, email: string, password: string): (r: Result<nat, string>)
    ensures r.Ok? ==>
      && r.value < |users| && users[r.value].email == email
      && VerifyPassword(password, users[r.value].passwordHash) && users[r.value].isActive
    ensures r.Err? ==> r.error == InvalidCredentialsMessage || r.error == AccountDisabledMessage
    ensures (forall k :: 0 <= k < |users| ==> users[k].email != email) ==> r == Err(InvalidCredentialsMessage)
    ensures r == Err(AccountDisabledMessage) ==>
      exists k :: 0 <= k < |users| && users[k].email == email && VerifyPassword(password, users[k].passwordHash)
    ensures forall k :: 0 <= k < |users| && users[k].email == email && FirstWithEmail(users, k) ==>
      && (r == Ok(k) <==> VerifyPassword(password, users[k].passwordHash) && users[k].isActive)
      && (!VerifyPassword(password, users[k].passwordHash) ==> r == Err(InvalidCredentialsMessage))
      && (VerifyPassword(password, users[k].passwordHash) && !users[k].isActive ==> r == Err(AccountDisabledMessage))
  {
    var i := FindByEmail(users, email);
    if i == |users| then Err(InvalidCredentialsMessage)
    else if !VerifyPassword(password, users[i].passwordHash) then Err(InvalidCredentialsMessage)
    else if !users[i].isActive then Err(AccountDisabledMessage)
    else Ok(i)
  }

  /** `authenticate`: the user when the e-mail is known and the password
      verifies; activity is not checked. */
  function Authenticate(users: seq<User>, email: string, password: string): (r: Option<User>)
    ensures r.Some? ==> r.value in users && r.value.email == email && VerifyPassword(password, r.value.passwordHash)
    ensures (forall k :: 0 <= k < |users| ==> users[k].email != email) ==> r.None?
    ensures forall k :: 0 <= k < |users| && users[k].email == email && FirstWithEmail(users, k) ==>
      && (VerifyPassword(password, users[k].passwordHash) ==> r == Some(users[k]))
      && (!VerifyPassword(password, users[k].passwordHash) ==> r.None?)
  {
    var i := FindByEmail(users, email);
    if i == |users| then None
    else if !VerifyPassword(password, users[i].passwordHash) then None
    else Some(users[i])
  }

  /** With unique e-mails, `login` succeeds exactly when `authenticate`
      finds an active user, and a wrong password and an unknown e-mail are
      indistinguishable to the caller of `login`. */
  lemma LoginAgreesWithAuthenticate(users: seq<User>, email: string, password: string)
    requires EmailsUnique(users)
    ensures CheckLogin(users, email, password).Ok? <==>
      Authenticate(users, email, password).Some? && Authenticate(users, email, password).value.isActive
    ensures Authenticate(users, email, password).None? ==> CheckLogin(users, email, password) == Err(InvalidCredentialsMessage)
    ensures CheckLogin(users, email, password) == Err(AccountDisabledMessage) <==>
      Authenticate(users, email, password).Some? && !Authenticate(users, email, password).value.isActive
  {
  }

  /** Under the unique constraint, the user holding the e-mail decides both
      operations: a wrong password is refused with the generic message, a
      right one logs an active user in and a disabled user out, and
      `authenticate` returns the user, active or not. */
  lemma LoginOutcome(users: seq<User>, email: string, password: string, k: nat)
    requires EmailsUnique(users)
    requires k < |users| && users[k].email == email
    ensures CheckLogin(users, email, password) ==
      if !VerifyPassword(password, users[k].passwordHash) then Err(InvalidCredentialsMessage)
      else if !users[k].isActive then Err(AccountDisabledMessage)
      else Ok(k)
    ensures Authenticate(users, email, password) ==
      if VerifyPassword(password, users[k].passwordHash) then Some(users[k]) else None
  {
    assert FirstWithEmail(users, k);
  }

  /** `settings.JWT_ACCESS_TOKEN_EXPIRE_MINUTES` and `..._REFRESH_TOKEN_EXPIRE_DAYS`. */
  datatype JwtSettings = JwtSettings(accessTokenExpireMinutes: int, refreshTokenExpireDays: int)

  const DefaultJwtSettings: JwtSettings := JwtSettings(30, 7)

  /** The claims `login` puts in both tokens. */
  function LoginClaims(user: User): (claims: map<string, Json.Value>)
    ensures claims.Keys == {"sub", "email", "tenant_id"}
    ensures claims["sub"] == Json.Str(user.id) && claims["email"] == Json.Str(user.email)
    ensures claims["tenant_id"] == Json.Str(user.tenantId)
  {
    map["sub" := Json.Str(user.id), "email" := Json.Str(user.email), "tenant_id" := Json.Str(user.tenantId)]
  }

  /** `create_access_token` / `create_refresh_token`: the claims plus `exp`
      and `type`, handed to the signer. */
  function TokenClaims(claims: map<string, Json.Value>, expiresAt: Timestamp, kind: string): map<string, Json.Value> {
    claims["exp" := Json.Num(expiresAt as real)]["type" := Json.Str(kind)]
  }

  /** The response of a successful login. */
  function LoginTokens(user: User, now: Timestamp, settings: JwtSettings, sign: map<string, Json.Value> -> string): (r: TokenResponse)
    ensures r.tokenType == "bearer"
    ensures r.expiresIn == settings.accessTokenExpireMinutes * 60
    ensures r.accessToken == sign(TokenClaims(LoginClaims(user), now + settings.accessTokenExpireMinutes * 60, "access"))
    ensures r.refreshToken == Some(sign(TokenClaims(LoginClaims(user), now + settings.refreshTokenExpireDays * 86400, "refresh")))
  {
    var claims := LoginClaims(user);
    NewTokenResponse(
      sign(TokenClaims(claims, now + settings.accessTokenExpireMinutes * 60, "access")),
      Some(sign(TokenClaims(claims, now + settings.refreshTokenExpireDays * 86400, "refresh"))),
      settings.accessTokenExpireMinutes * 60)
  }

  /** The row `register` inserts. */
  function NewUser(data: UserCreate, id: string, tenantId: string): (u: User)
    ensures u.email == data.email && u.fullName == data.fullName
    ensures u.id == id && u.tenantId == tenantId
    ensures u.isActive && !u.isVerified && u.encryptedApiKeys == map[] && u.lastLogin.None?
    ensures VerifyPassword(data.password, u.passwordHash)
  {
    User(id, data.email, HashPassword(data.password), data.fullName, tenantId, true, false, map[], None)
  }

  /** `AuthService` over the `users` table. */
  class UserStore {
    var users: seq<User>

    ghost predicate Valid()
      reads this
    {
      EmailsUnique(users)
    }

    constructor ()
      ensures Valid() && users == []
    {
      users := [];
    }

    /** `register`: a duplicate e-mail raises and inserts nothing; otherwise
        one active, unverified user with no API keys is added. The ids come
        from `uuid4` and are parameters here. */
    method Register(data: UserCreate, newId: string, newTenantId: string) returns (r: Result<User, string>)
      requires Valid()
      modifies this
      ensures Valid()
      ensures (exists k :: 0 <= k < |old(users)| && old(users)[k].email == data.email) ==>
        r == Err(DuplicateEmailMessage) && users == old(users)
      ensures (forall k :: 0 <= k < |old(users)| ==> old(users)[k].email != data.email) ==>
        r == Ok(NewUser(data, newId, newTenantId)) && users == old(users) + [r.value]
    {
      var i := FindByEmail(users, data.email);
      if i < |users| {
        return Err(DuplicateEmailMessage);
      }
      var user := NewUser(data, newId, newTenantId);
      users := users + [user];
      r := Ok(user);
    }

    /** `login`: on failure nothing changes; on success only the user's
        `last_login` is set, and the tokens carry its claims. */
    method Login(email: string, password: string, now: Timestamp, settings: JwtSettings,
                 sign: map<string, Json.Value> -> string) returns (r: Result<TokenResponse, string>)
      requires Valid()
      modifies this
      ensures Valid()
      ensures CheckLogin(old(users), email, password).Err? ==>
        r == Err(CheckLogin(old(users), email, password).error) && users == old(users)
      ensures CheckLogin(old(users), email, password).Ok? ==>
        var i := CheckLogin(old(users), email, password).value;
        && users == old(users)[i := old(users)[i].(lastLogin := Some(now))]
        && r == Ok(LoginTokens(old(users)[i], now, settings, sign))
    {
      var check := CheckLogin(users, email, password);
      if check.Err? {
        return Err(check.error);
      }
      var i := check.value;
      var user := users[i];
      users := users[i := user.(lastLogin := Some(now))];
      r := Ok(LoginTokens(user, now, settings, sign));
    }
  }
}
