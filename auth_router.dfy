/** The `/auth` endpoints: register (admin only), login, refresh and `/me`. */
module AuthRouter {
  import opened Common
  import opened Exceptions
  import opened UserModels
  import opened UserStore
  import opened Encoders
  import opened Dependencies

  /** `timedelta(minutes=15)` and `timedelta(days=7)`, in seconds. */
  const AccessTokenTtl := AccessTokenExpireMinutes * 60
  const RefreshTokenTtl := RefreshTokenExpireDays * 24 * 60 * 60

  const UsernameTaken := HttpError(409, "L'utilisateur existe dejas.", false)
  const EmailTaken := HttpError(409, "l'Email est deja utilise.", false)

  /** The `Token` response body. */
  datatype Token = Token(accessToken: Jwt, refreshToken: Jwt, tokenType: string)

  /** The access token's claims: subject and role. */
  function AccessClaims(u: User): Claims {
    map["sub" := Text(u.username), "role" := Text(u.role)]
  }

  /** The refresh token's claims: the subject only. */
  function RefreshClaims(u: User): Claims {
    map["sub" := Text(u.username)]
  }

  /** The pair login and refresh both hand out for a user at time `now`. */
  function IssueTokens(u: User, secret: string, now: int): (t: Token)
    ensures t.tokenType == "bearer"
    ensures DecodeToken(t.accessToken, secret, now)
         == Ok(map["sub" := Text(u.username), "role" := Text(u.role), "exp" := Instant(now + 900)])
    ensures DecodeToken(t.refreshToken, secret, now)
         == Ok(map["sub" := Text(u.username), "exp" := Instant(now + 604800)])
    ensures DecodeToken(t.accessToken, secret, now + 900) == Err(TokenExpireException)
    ensures DecodeToken(t.refreshToken, secret, now + 604800) == Err(TokenExpireException)
  {
    Token(EncodeToken(AccessClaims(u), AccessTokenTtl, now, secret),
          EncodeToken(RefreshClaims(u), RefreshTokenTtl, now, secret),
          "bearer")
  }

  /** `login_for_access_token`: the error of `authenticate_user`, or a token
      pair for the authenticated user. (Its `if not user` branch cannot be
      taken: authentication returns a user or raises.) */
  function LoginForAccessToken(rows: seq<User>, h: Hasher, secret: string,
                               username: string, password: string, now: int): (r: Result<Token>)
    ensures r.Ok? <==> AuthenticateUser(rows, h, username, password).Ok?
    ensures r.Err? ==> r.error == AuthenticateUser(rows, h, username, password).error
    ensures r.Ok? ==>
              && r.value.tokenType == "bearer"
              && DecodeToken(r.value.accessToken, secret, now)
                 == Ok(map["sub" := Text(username),
                           "role" := Text(AuthenticateUser(rows, h, username, password).value.role),
                           "exp" := Instant(now + 900)])
              && DecodeToken(r.value.refreshToken, secret, now)
                 == Ok(map["sub" := Text(username), "exp" := Instant(now + 604800)])
  {
    var user :- AuthenticateUser(rows, h, username, password);
    Ok(IssueTokens(user, secret, now))
  }

  /** `payload.get("sub")` as `refresh_token` passes it on: any string, the empty one included. */
  function RawSubject(claims: Claims): (s: Option<string>)
    ensures s.Some? <==> "sub" in claims && claims["sub"].Text?
    ensures s.Some? ==> claims["sub"] == Text(s.value)
  {
    if "sub" in claims && claims["sub"].Text? then Some(claims["sub"].text) else None
  }

  /** `refresh_token`: decode the token (of either kind), re-read its subject
      from the table (404 when absent; a missing subject matches no row) and
      issue a fresh pair carrying the user's current role. Activity is not checked.
      (Its `if not user` branch cannot be taken: the lookup returns a user or raises.) */
  function RefreshToken(rows: seq<User>, secret: string, refresh: Jwt, now: int): (r: Result<Token>)
    ensures DecodeToken(refresh, secret, now).Err? ==> r == Err(DecodeToken(refresh, secret, now).error)
    ensures (DecodeToken(refresh, secret, now).Ok? && RawSubject(refresh.payload).None?) ==> r == Err(UserNotFound)
    ensures (DecodeToken(refresh, secret, now).Ok? && RawSubject(refresh.payload).Some?) ==>
              (r.Ok? <==> HasUsername(rows, RawSubject(refresh.payload).value))
    ensures (DecodeToken(refresh, secret, now).Ok? && RawSubject(refresh.payload).Some?
             && !HasUsername(rows, RawSubject(refresh.payload).value)) ==> r == Err(UserNotFound)
    ensures r.Err? ==> r.error in {UserNotFound, CredentialsException, TokenExpireException}
    ensures r.Ok? ==> exists u :: u in rows && Some(u.username) == RawSubject(refresh.payload)
                                 && r.value == IssueTokens(u, secret, now)
  {
    var payload :- DecodeToken(refresh, secret, now);
    match RawSubject(payload)
    case None => Err(UserNotFound)
    case Some(username) =>
      var user :- GetUser(rows, username);
      Ok(IssueTokens(user, secret, now))
  }

  /** Refreshing with a token that names row `k` hands out an access token that
      carries the role the row holds now, whatever role the token was issued
      under and whether or not the account is active. */
  lemma RefreshCarriesCurrentRole(rows: seq<User>, nextId: nat, secret: string, refresh: Jwt, now: int, k: nat)
    requires Consistent(rows, nextId) && k < |rows|
    requires DecodeToken(refresh, secret, now).Ok?
    requires "sub" in refresh.payload && refresh.payload["sub"] == Text(rows[k].username)
    ensures RefreshToken(rows, secret, refresh, now).Ok?
    ensures DecodeToken(RefreshToken(rows, secret, refresh, now).value.accessToken, secret, now)
         == Ok(map["sub" := Text(rows[k].username), "role" := Text(rows[k].role), "exp" := Instant(now + 900)])
  {
    GetUserFindsRow(rows, nextId, k);
  }

  /** Refresh does not tell the two kinds of token apart: the access token of a
      login is accepted by refresh until it expires, and the pair it yields
      carries the role of the row as the table holds it at refresh time, which
      may have changed since login. */
  lemma RefreshAcceptsAccessToken(rows: seq<User>, later: seq<User>, nextId: nat, h: Hasher, secret: string,
                                  username: string, password: string, loginAt: int, refreshAt: int, k: nat)
    requires LoginForAccessToken(rows, h, secret, username, password, loginAt).Ok?
    requires loginAt <= refreshAt < loginAt + AccessTokenTtl
    requires Consistent(later, nextId) && k < |later| && later[k].username == username
    ensures RefreshToken(later, secret, LoginForAccessToken(rows, h, secret, username, password, loginAt).value.accessToken, refreshAt).Ok?
    ensures DecodeToken(RefreshToken(later, secret, LoginForAccessToken(rows, h, secret, username, password, loginAt).value.accessToken, refreshAt).value.accessToken, secret, refreshAt)
         == Ok(map["sub" := Text(username), "role" := Text(later[k].role), "exp" := Instant(refreshAt + 900)])
  {
    var u := AuthenticateUser(rows, h, username, password).value;
    var access := LoginForAccessToken(rows, h, secret, username, password, loginAt).value.accessToken;
    DecodeEncoded(AccessClaims(u), AccessTokenTtl, loginAt, secret, refreshAt);
    assert access.payload["sub"] == Text(username);
    RefreshCarriesCurrentRole(later, nextId, secret, access, refreshAt, k);
  }

  /** `read_users_me`: the public view of the current active user; the errors of
      `get_current_user` (401 for a bad or expired token, 404 for an unknown
      subject) pass through, and an inactive user gets 400. */
  function ReadUsersMe(rows: seq<User>, secret: string, token: Jwt, now: int): (r: Result<UserPublic>)
    ensures GetCurrentUser(rows, token, secret, now).Err? ==> r == Err(GetCurrentUser(rows, token, secret, now).error)
    ensures r.Ok? <==> GetCurrentUser(rows, token, secret, now).Ok? && GetCurrentUser(rows, token, secret, now).value.isActive
    ensures r.Ok? ==> r.value == ToPublic(GetCurrentUser(rows, token, secret, now).value)
    ensures (GetCurrentUser(rows, token, secret, now).Ok? && !GetCurrentUser(rows, token, secret, now).value.isActive)
              ==> r == Err(InactiveUser)
  {
    var user :- GetCurrentUser(rows, token, secret, now);
    var active :- GetCurrentActiveUser(user);
    Ok(ToPublic(active))
  }

  /** `create_user` (`POST /auth/register`): only an administrator gets past the
      guard; then a taken username (409), then a taken email (409), then the
      password policy (400) are checked, in that order, before exactly one row
      is inserted with the hash of the password and the table's defaults. */
  method CreateUser(db: UserTable, user: UserCreate, token: Jwt, secret: string,
                    h: Hasher, salt: nat, now: int) returns (r: Result<UserPublic>)
    requires db.Valid()
    modifies db
    ensures db.Valid()
    ensures Authorize(AdminOnly, old(db.rows), token, secret, now).Err? ==>
              r == Err(Authorize(AdminOnly, old(db.rows), token, secret, now).error) && unchanged(db)
    ensures (Authorize(AdminOnly, old(db.rows), token, secret, now).Ok? && HasUsername(old(db.rows), user.username)) ==>
              r == Err(UsernameTaken) && unchanged(db)
    ensures (Authorize(AdminOnly, old(db.rows), token, secret, now).Ok? && !HasUsername(old(db.rows), user.username)
             && HasEmail(old(db.rows), user.email)) ==>
              r == Err(EmailTaken) && unchanged(db)
    ensures (Authorize(AdminOnly, old(db.rows), token, secret, now).Ok? && !HasUsername(old(db.rows), user.username)
             && !HasEmail(old(db.rows), user.email) && ValidatePassword(user.password).Err?) ==>
              r == Err(ValidatePassword(user.password).error) && unchanged(db)
    ensures r.Ok? <==> (Authorize(AdminOnly, old(db.rows), token, secret, now).Ok? && !HasUsername(old(db.rows), user.username)
                        && !HasEmail(old(db.rows), user.email) && ValidatePassword(user.password).Ok?)
    ensures r.Ok? ==>
              var stored := NewUser(user, HashPassword(h, user.password, salt), now).(id := old(db.nextId));
              && db.rows == old(db.rows) + [stored]
              && db.nextId == old(db.nextId) + 1
              && r.value == ToPublic(stored)
  {
    var current := Authorize(AdminOnly, db.rows, token, secret, now);
    if current.Err? {
      return Err(current.error);
    }
    if IndexOfUsername(db.rows, user.username).Some? {
      return Err(UsernameTaken);
    }
    if IndexOfEmail(db.rows, user.email).Some? {
      return Err(EmailTaken);
    }
    var strength := ValidatePassword(user.password);
    if strength.Err? {
      return Err(strength.error);
    }
    var hashedPassword := HashPassword(h, user.password, salt);
    var stored := db.Add(NewUser(user, hashedPassword, now));
    r := Ok(ToPublic(stored));
  }
}
