/** `create_admin_user`: insert an administrator unless the username is taken. */
module CreateAdmin {
  import opened Common
  import opened UserModels
  import opened UserStore
  import opened Encoders
  import D = Dependencies
  import AuthRouter

  /** The row the script builds: administrator role, active, the given hash. */
  function AdminUser(username: string, email: string, hashedPassword: string, now: int): (u: User)
    ensures u.role == ADMIN.Value() && u.isActive
    ensures u.username == username && u.email == email && u.hashedPassword == hashedPassword
    ensures u.firstName == None && u.lastName == None
  {
    User(0, username, email, None, None, hashedPassword, ADMIN.Value(), true, now, now)
  }

  /** The table (rows, serial counter) after the script, given the table before. */
  function AfterCreateAdmin(rows: seq<User>, nextId: nat, username: string, email: string,
                            hashedPassword: string, now: int): (seq<User>, nat)
  {
    if HasUsername(rows, username) then (rows, nextId)
    else (rows + [AdminUser(username, email, hashedPassword, now).(id := nextId)], nextId + 1)
  }

  /** The script on a table: a lookup by username, then at most one insert.
      Neither the password policy nor the email is checked. */
  method CreateAdminUser(db: UserTable, username: string, email: string, password: string,
                         h: Hasher, salt: nat, now: int)
    requires db.Valid()
    modifies db
    ensures db.Valid()
    ensures (db.rows, db.nextId)
         == AfterCreateAdmin(old(db.rows), old(db.nextId), username, email, HashPassword(h, password, salt), now)
  {
    if IndexOfUsername(db.rows, username).Some? {
      return;
    }
    var hashedPassword := HashPassword(h, password, salt);
    var stored := db.Add(AdminUser(username, email, hashedPassword, now));
  }

  /** The script keeps the table consistent, and afterwards the username is
      held by exactly the administrator row: the one already there, or one new
      row at the end. */
  lemma AfterCreateAdminShape(rows: seq<User>, nextId: nat, username: string, email: string,
                              hashedPassword: string, now: int)
    requires Consistent(rows, nextId)
    ensures var (rows', nextId') := AfterCreateAdmin(rows, nextId, username, email, hashedPassword, now);
            && Consistent(rows', nextId')
            && HasUsername(rows', username)
            && (HasUsername(rows, username) ==> rows' == rows && nextId' == nextId)
            && (!HasUsername(rows, username) ==>
                  && |rows'| == |rows| + 1 && rows'[..|rows|] == rows
                  && rows'[|rows|].username == username && rows'[|rows|].role == "Administrateur"
                  && rows'[|rows|].isActive && rows'[|rows|].hashedPassword == hashedPassword)
  {
    var (rows', nextId') := AfterCreateAdmin(rows, nextId, username, email, hashedPassword, now);
    if !HasUsername(rows, username) {
      assert rows'[|rows|].username == username;
      assert rows'[..|rows|] == rows;
    }
  }

  /** Running the script a second time with the same username changes nothing,
      whatever the email, password or salt of the second run. */
  lemma CreateAdminIdempotent(rows: seq<User>, nextId: nat, username: string,
                                                 email: string, hashed: string, now: int,
                                                 email2: string, hashed2: string, now2: int)
    ensures var (rows', nextId') := AfterCreateAdmin(rows, nextId, username, email, hashed, now);
            AfterCreateAdmin(rows', nextId', username, email2, hashed2, now2) == (rows', nextId')
  {
    var (rows', nextId') := AfterCreateAdmin(rows, nextId, username, email, hashed, now);
    if !HasUsername(rows, username) {
      assert rows'[|rows|].username == username;
    }
  }

  /** The administrator the script creates can log in with the password given
      to it, and the access token handed out passes the admin-only guard. */
  lemma CreatedAdminPassesGuard(rows: seq<User>, nextId: nat, username: string, email: string,
                                password: string, h: Hasher, salt: nat, now: int,
                                secret: string, loginAt: int, requestAt: int)
    requires Sound(h) && Consistent(rows, nextId) && !HasUsername(rows, username) && username != ""
    requires loginAt <= requestAt < loginAt + AuthRouter.AccessTokenTtl
    ensures var (rows', _) := AfterCreateAdmin(rows, nextId, username, email, HashPassword(h, password, salt), now);
            var login := AuthRouter.LoginForAccessToken(rows', h, secret, username, password, loginAt);
            && login.Ok?
            && D.Authorize(D.AdminOnly, rows', login.value.accessToken, secret, requestAt).Ok?
  {
    var hashed := HashPassword(h, password, salt);
    var (rows', nextId') := AfterCreateAdmin(rows, nextId, username, email, hashed, now);
    AfterCreateAdminShape(rows, nextId, username, email, hashed, now);
    var k := |rows|;
    D.AuthenticateOwnPassword(rows', nextId', h, k, password, salt);
    var login := AuthRouter.LoginForAccessToken(rows', h, secret, username, password, loginAt);
    var access := login.value.accessToken;
    DecodeEncoded(AuthRouter.AccessClaims(rows'[k]), AuthRouter.AccessTokenTtl, loginAt, secret, requestAt);
    assert D.Subject(access.payload) == Some(username);
    D.GetUserFindsRow(rows', nextId', k);
  }
}
