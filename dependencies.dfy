/** Lookups, authentication, the request guard chain, the password policy
    and the uniqueness check. Every function reads the user table and either
    returns a value or the error the source raises. */
module Dependencies {
  import opened Common
  import opened Exceptions
  import opened UserModels
  import opened UserStore
  import opened Encoders

  const AccessTokenExpireMinutes := 15
  const RefreshTokenExpireDays := 7

  const UserNotFound := HttpError(404, "User not found", false)
  const InactiveUserLocked := HttpError(423, "Inactive user.", false)
  const InactiveUser := HttpError(400, "Inactive user", false)
  const NotEnoughPermissions := HttpError(403, "You don't have enough permissions", false)

  // ---------------------------------------------------------------- lookups

  /** `get_user`: the row with this username, or 404. */
  function GetUser(rows: seq<User>, username: string): (r: Result<User>)
    ensures r.Ok? <==> HasUsername(rows, username)
    ensures r.Ok? ==> r.value in rows && r.value.username == username
    ensures r.Err? ==> r.error == UserNotFound
  {
    match IndexOfUsername(rows, username)
    case Some(i) => Ok(rows[i])
    case None => Err(UserNotFound)
  }

  /** `get_user_by_email`: the first row with this email, or 404. Email is not
      unique, so this is the earliest such row. */
  function GetUserByEmail(rows: seq<User>, email: string): (r: Result<User>)
    ensures r.Ok? <==> HasEmail(rows, email)
    ensures r.Ok? ==> r.value in rows && r.value.email == email
    ensures r.Ok? ==> exists k :: 0 <= k < |rows| && rows[k] == r.value
                       && forall j :: 0 <= j < k ==> rows[j].email != email
    ensures r.Err? ==> r.error == UserNotFound
  {
    match IndexOfEmail(rows, email)
    case Some(i) => Ok(rows[i])
    case None => Err(UserNotFound)
  }

  /** In a consistent table `get_user` returns the very row holding the username. */
  lemma GetUserFindsRow(rows: seq<User>, nextId: nat, k: nat)
    requires Consistent(rows, nextId) && k < |rows|
    ensures GetUser(rows, rows[k].username) == Ok(rows[k])
  {
    UniqueUsernameLookup(rows, nextId, k);
  }

  // --------------------------------------------------------- authentication

  /** `authenticate_user`: unknown username (404), then inactive account (423),
      then wrong password (401); otherwise the stored row. */
  function AuthenticateUser(rows: seq<User>, h: Hasher, username: string, password: string): (r: Result<User>)
    ensures r.Ok? <==> && GetUser(rows, username).Ok?
                       && GetUser(rows, username).value.isActive
                       && VerifyPassword(h, password, GetUser(rows, username).value.hashedPassword)
    ensures r.Ok? ==> r == GetUser(rows, username)
    ensures r.Ok? ==> r.value in rows && r.value.username == username && r.value.isActive
                      && VerifyPassword(h, password, r.value.hashedPassword)
    ensures r == Err(UserNotFound) <==> !HasUsername(rows, username)
    ensures r == Err(InactiveUserLocked) <==> GetUser(rows, username).Ok? && !GetUser(rows, username).value.isActive
    ensures r == Err(CredentialsException) <==>
              && GetUser(rows, username).Ok?
              && GetUser(rows, username).value.isActive
              && !VerifyPassword(h, password, GetUser(rows, username).value.hashedPassword)
  {
    var user :- GetUser(rows, username);
    if !user.isActive then Err(InactiveUserLocked)
    else if !VerifyPassword(h, password, user.hashedPassword) then Err(CredentialsException)
    else Ok(user)
  }

  /** An inactive account is locked whatever password is offered: the answer
      never depends on the password. */
  lemma InactiveLockedWhateverPassword(rows: seq<User>, nextId: nat, h: Hasher, k: nat, p1: string, p2: string)
    requires Consistent(rows, nextId) && k < |rows| && !rows[k].isActive
    ensures AuthenticateUser(rows, h, rows[k].username, p1) == Err(InactiveUserLocked)
    ensures AuthenticateUser(rows, h, rows[k].username, p1) == AuthenticateUser(rows, h, rows[k].username, p2)
  {
    GetUserFindsRow(rows, nextId, k);
  }

  /** An active user who offers the password their stored hash was made from is
      authenticated as that very row. */
  lemma AuthenticateOwnPassword(rows: seq<User>, nextId: nat, h: Hasher, k: nat, password: string, salt: nat)
    requires Sound(h) && Consistent(rows, nextId) && k < |rows|
    requires rows[k].isActive && rows[k].hashedPassword == HashPassword(h, password, salt)
    ensures AuthenticateUser(rows, h, rows[k].username, password) == Ok(rows[k])
  {
    GetUserFindsRow(rows, nextId, k);
  }

  // ------------------------------------------------------------ guard chain

  /** `payload.get("sub")` when it is a non-empty string. */
  function Subject(claims: Claims): (s: Option<string>)
    ensures s.Some? ==> "sub" in claims && claims["sub"] == Text(s.value) && s.value != ""
    ensures s.None? ==> "sub" !in claims || !claims["sub"].Text? || claims["sub"].text == ""
  {
    if "sub" in claims && claims["sub"].Text? && claims["sub"].text != ""
    then Some(claims["sub"].text)
    else None
  }

  /** `get_current_user`: decode the bearer token, require a subject, and re-read
      the user from the table by it. Any `role` claim is not looked at. */
  function GetCurrentUser(rows: seq<User>, token: Jwt, secret: string, now: int): (r: Result<User>)
    ensures DecodeToken(token, secret, now).Err? ==> r == Err(DecodeToken(token, secret, now).error)
    ensures (DecodeToken(token, secret, now).Ok? && Subject(DecodeToken(token, secret, now).value).None?)
              ==> r == Err(CredentialsException)
    ensures r.Ok? ==> r.value in rows && Subject(token.payload) == Some(r.value.username)
    ensures (DecodeToken(token, secret, now).Ok? && Subject(token.payload).Some?)
              ==> r == GetUser(rows, Subject(token.payload).value)
  {
    var payload :- DecodeToken(token, secret, now);
    match Subject(payload)
    case None => Err(CredentialsException)
    case Some(username) => GetUser(rows, username)
  }

  /** The role carried in a token has no say: changing or adding it leaves the
      resolved user unchanged. */
  lemma CurrentUserIgnoresRoleClaim(rows: seq<User>, alg: string, key: string, payload: Claims,
                                    role: ClaimValue, secret: string, now: int)
    ensures GetCurrentUser(rows, Signed(alg, key, payload["role" := role]), secret, now)
         == GetCurrentUser(rows, Signed(alg, key, payload), secret, now)
  {
    var p' := payload["role" := role];
    assert ("exp" in p') == ("exp" in payload) && ("exp" in payload ==> p'["exp"] == payload["exp"]);
    assert Subject(p') == Subject(payload) by {
      assert ("sub" in p') == ("sub" in payload) && ("sub" in payload ==> p'["sub"] == payload["sub"]);
    }
  }

  /** `get_current_active_user`: 400 for an inactive user, else the user unchanged. */
  function GetCurrentActiveUser(currentUser: User): (r: Result<User>)
    ensures r.Ok? <==> currentUser.isActive
    ensures r.Ok? ==> r.value == currentUser
    ensures r.Err? ==> r.error == InactiveUser
  {
    if !currentUser.isActive then Err(InactiveUser) else Ok(currentUser)
  }

  /** `RoleChecker(allowed_roles)`: the list is fixed when the dependency is built. */
  datatype RoleChecker = RoleChecker(allowedRoles: seq<string>) {

    /** `__call__` on the user the active-user dependency produced. */
    function Call(user: User): (r: Result<User>)
      ensures r.Ok? <==> user.role in allowedRoles || "*" in allowedRoles
      ensures r.Ok? ==> r.value == user
      ensures r.Err? ==> r.error == NotEnoughPermissions
    {
      if user.role in allowedRoles || "*" in allowedRoles then Ok(user)
      else Err(NotEnoughPermissions)
    }
  }

  /** The whole `Depends` chain of a protected endpoint:
      `get_current_user`, then `get_current_active_user`, then the role checker. */
  function Authorize(checker: RoleChecker, rows: seq<User>, token: Jwt, secret: string, now: int): (r: Result<User>)
    ensures r.Ok? ==> r.value in rows && r.value.isActive
                      && (r.value.role in checker.allowedRoles || "*" in checker.allowedRoles)
    ensures r.Ok? ==> GetCurrentUser(rows, token, secret, now) == Ok(r.value)
    ensures GetCurrentUser(rows, token, secret, now).Err? ==> r == Err(GetCurrentUser(rows, token, secret, now).error)
    ensures (GetCurrentUser(rows, token, secret, now).Ok? && !GetCurrentUser(rows, token, secret, now).value.isActive)
              ==> r == Err(InactiveUser)
    ensures (GetCurrentUser(rows, token, secret, now).Ok? && GetCurrentUser(rows, token, secret, now).value.isActive)
              ==> r == checker.Call(GetCurrentUser(rows, token, secret, now).value)
  {
    var user :- GetCurrentUser(rows, token, secret, now);
    var active :- GetCurrentActiveUser(user);
    checker.Call(active)
  }

  /** `RoleChecker(allowed_roles=[RoleType.ADMIN])`, the guard of every admin endpoint. */
  const AdminOnly := RoleChecker([ADMIN.Value()])

  /** What passes the admin guard is an active, stored user whose role is the
      administrator's. */
  lemma AdminOnlyAdmitsAdmins(rows: seq<User>, token: Jwt, secret: string, now: int)
    ensures Authorize(AdminOnly, rows, token, secret, now).Ok? ==>
              var u := Authorize(AdminOnly, rows, token, secret, now).value;
              u in rows && u.isActive && u.role == "Administrateur"
  {
  }

  /** An active, stored user holding any role of the enumeration other than the
      administrator's is refused by the admin guard with 403. */
  lemma AdminGuardRefusesOtherRoles(rows: seq<User>, token: Jwt, secret: string, now: int, role: RoleType)
    requires role != ADMIN
    requires GetCurrentUser(rows, token, secret, now).Ok?
    requires GetCurrentUser(rows, token, secret, now).value.isActive
    requires GetCurrentUser(rows, token, secret, now).value.role == role.Value()
    ensures Authorize(AdminOnly, rows, token, secret, now) == Err(NotEnoughPermissions)
  {
  }

  /** An active user whose role is not in the list is refused with 403, unless
      the list holds the wildcard, which admits every active user. */
  lemma RoleCheckerWildcard(roles: seq<string>, user: User)
    requires user.isActive
    ensures "*" in roles ==> RoleChecker(roles).Call(user) == Ok(user)
    ensures "*" !in roles && user.role !in roles ==> RoleChecker(roles).Call(user) == Err(NotEnoughPermissions)
  {
  }

  // ---------------------------------------------------------- password policy

  const SpecialCharacters := "@$!%*?&#"

  /** The rules of `validate_password`, each with its message. */
  datatype PasswordRule = MinLength | Uppercase | Lowercase | Digit | SpecialCharacter {

    predicate Holds(p: string) {
      match this
      case MinLength => |p| >= 6
      case Uppercase => exists i :: 0 <= i < |p| && 'A' <= p[i] <= 'Z'
      case Lowercase => exists i :: 0 <= i < |p| && 'a' <= p[i] <= 'z'
      case Digit => exists i :: 0 <= i < |p| && '0' <= p[i] <= '9'
      case SpecialCharacter => exists i :: 0 <= i < |p| && p[i] in SpecialCharacters
    }

    function Message(): string {
      match this
      case MinLength => "Password must be at least 6 characters long."
      case Uppercase => "Password must contain at least one uppercase letter."
      case Lowercase => "Password must contain at least one lowercase letter."
      case Digit => "Password must contain at least one number."
      case SpecialCharacter => "Password must contain at least one special character."
    }
  }

  /** The rules in the order they are tried. */
  const ValidationRules: seq<PasswordRule> := [MinLength, Uppercase, Lowercase, Digit, SpecialCharacter]

  /** The policy stated on its own: at least six characters, with an ASCII
      capital, an ASCII small letter, a digit and one of `@$!%*?&#`. */
  predicate StrongPassword(p: string) {
    && |p| >= 6
    && (exists i :: 0 <= i < |p| && 'A' <= p[i] <= 'Z')
    && (exists i :: 0 <= i < |p| && 'a' <= p[i] <= 'z')
    && (exists i :: 0 <= i < |p| && '0' <= p[i] <= '9')
    && (exists i :: 0 <= i < |p| && p[i] in "@$!%*?&#")
  }

  /** `validate_password`: the first rule, in list order, that the password
      breaks is reported as a 400 carrying that rule's message. */
  function ValidatePassword(password: string): (r: Result<()>)
    ensures r.Ok? <==> StrongPassword(password)
    ensures r.Err? ==> exists k :: 0 <= k < |ValidationRules|
                         && r.error == HttpError(400, ValidationRules[k].Message(), false)
                         && !ValidationRules[k].Holds(password)
                         && forall j :: 0 <= j < k ==> ValidationRules[j].Holds(password)
  {
    match FirstMatch(ValidationRules, (rule: PasswordRule) => !rule.Holds(password))
    case None => Ok(())
    case Some(k) => Err(HttpError(400, ValidationRules[k].Message(), false))
  }

  /** A password shorter than six characters is reported for its length,
      whatever else it lacks; "abc" is one. */
  lemma ShortPasswordReportsLength(password: string)
    requires |password| < 6
    ensures ValidatePassword(password) == Err(HttpError(400, "Password must be at least 6 characters long.", false))
  {
  }

  // ------------------------------------------------------------- uniqueness

  /** The columns of the user table a uniqueness check can name. */
  datatype UserField = UsernameField | EmailField {

    function Name(): string {
      match this
      case UsernameField => "username"
      case EmailField => "email"
    }

    function Of(u: User): string {
      match this
      case UsernameField => u.username
      case EmailField => u.email
    }
  }

  /** `check_unique_constraint` on the user table: 409 exactly when a row other
      than `excludeId` already holds `value` in `field`. */
  function CheckUniqueConstraint(rows: seq<User>, field: UserField, value: string, excludeId: Option<int>): (r: Result<()>)
    ensures r.Err? <==> exists i :: 0 <= i < |rows| && field.Of(rows[i]) == value
                                  && (excludeId.None? || rows[i].id != excludeId.value)
    ensures r.Err? ==> r.error == HttpError(409, "User with " + field.Name() + " '" + value + "' already exists", false)
  {
    match FirstMatch(rows, (u: User) => field.Of(u) == value && (excludeId.None? || u.id != excludeId.value))
    case Some(_) => Err(HttpError(409, "User with " + field.Name() + " '" + value + "' already exists", false))
    case None => Ok(())
  }

  /** Excluding a row's own id lets it keep its value when it alone holds it. */
  lemma UniqueCheckExcludesOwnRow(rows: seq<User>, nextId: nat, k: nat)
    requires Consistent(rows, nextId) && k < |rows|
    ensures CheckUniqueConstraint(rows, UsernameField, rows[k].username, Some(rows[k].id)).Ok?
    ensures CheckUniqueConstraint(rows, UsernameField, rows[k].username, None).Err?
  {
  }
}
