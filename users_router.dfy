/** The `/users` endpoints, every one behind the administrator guard:
    list, get, partial update (with an optional password change) and delete. */
module UsersRouter {
  import opened Common
  import opened Exceptions
  import opened UserModels
  import opened UserStore
  import opened Encoders
  import D = Dependencies

  const UserNotFoundById := HttpError(404, "User not found.", false)

  /** What the client sees when the commit of an update breaks the unique index
      on username: the unhandled integrity error becomes a plain 500. */
  const StoreConflict := HttpError(500, "Internal Server Error", false)

  /** `get_user_by_id`: the row with this primary key, or 404. */
  function GetUserById(rows: seq<User>, userId: int): (r: Result<User>)
    ensures r.Ok? <==> exists j :: 0 <= j < |rows| && rows[j].id == userId
    ensures r.Ok? ==> r.value in rows && r.value.id == userId
    ensures r.Err? ==> r.error == UserNotFoundById
  {
    match IndexOfId(rows, userId)
    case Some(k) => Ok(rows[k])
    case None => Err(UserNotFoundById)
  }

  /** `list_users`: every row's public view, in table order, for an administrator. */
  function ListUsers(rows: seq<User>, token: Jwt, secret: string, now: int): (r: Result<seq<UserPublic>>)
    ensures r.Ok? <==> D.Authorize(D.AdminOnly, rows, token, secret, now).Ok?
    ensures r.Err? ==> r.error == D.Authorize(D.AdminOnly, rows, token, secret, now).error
    ensures r.Ok? ==> |r.value| == |rows| && forall i :: 0 <= i < |rows| ==> r.value[i] == ToPublic(rows[i])
  {
    var current :- D.Authorize(D.AdminOnly, rows, token, secret, now);
    Ok(seq(|rows|, i requires 0 <= i < |rows| => ToPublic(rows[i])))
  }

  /** `get_user` (`GET /users/{user_id}`): the guard, then the lookup by id. */
  function GetUser(rows: seq<User>, token: Jwt, secret: string, now: int, userId: int): (r: Result<UserPublic>)
    ensures D.Authorize(D.AdminOnly, rows, token, secret, now).Err? ==>
              r == Err(D.Authorize(D.AdminOnly, rows, token, secret, now).error)
    ensures r.Ok? <==> D.Authorize(D.AdminOnly, rows, token, secret, now).Ok? && GetUserById(rows, userId).Ok?
    ensures r.Ok? ==> exists u :: u in rows && u.id == userId && r.value == ToPublic(u)
    ensures (D.Authorize(D.AdminOnly, rows, token, secret, now).Ok? && GetUserById(rows, userId).Err?) ==>
              r == Err(UserNotFoundById)
  {
    var current :- D.Authorize(D.AdminOnly, rows, token, secret, now);
    var user :- GetUserById(rows, userId);
    Ok(ToPublic(user))
  }

  // ------------------------------------------------------------------ update

  /** Both `old_password` and `new_password` are present and non-empty. */
  predicate PasswordChangeRequested(upd: UserUpdate) {
    && upd.oldPassword.Some? && upd.oldPassword.value != ""
    && upd.newPassword.Some? && upd.newPassword.value != ""
  }

  /** The value a column takes when the update may or may not supply one. */
  function Patch<T>(current: T, supplied: Option<T>): T {
    if supplied.Some? then supplied.value else current
  }

  /** The update with every field left unset. */
  const EmptyUpdate := UserUpdate(None, None, None, None, None, None, None, None)

  /** The update sets a column of the user table (`sqlmodel_update` copies only
      those, and a password change adds `hashed_password`), which leaves the row
      dirty when the session flushes. */
  predicate TouchesRow(upd: UserUpdate) {
    || upd.username.Some? || upd.email.Some? || upd.firstName.Some? || upd.lastName.Some?
    || upd.isActive.Some? || upd.role.Some? || PasswordChangeRequested(upd)
  }

  /** `update_user` up to its commit: the conditional password change, then
      `sqlmodel_update` with the fields the request set, then the session's
      before-flush hook, which stamps `updated_at` on a dirty row. The two
      password fields are never copied; the new password is hashed but not
      checked against the password policy. */
  function ApplyUpdate(u: User, upd: UserUpdate, h: Hasher, salt: nat, now: int): (r: Result<User>)
    ensures r.Err? <==> PasswordChangeRequested(upd) && !VerifyPassword(h, upd.oldPassword.value, u.hashedPassword)
    ensures r.Err? ==> r.error == CredentialsException
    ensures r.Ok? ==>
              && r.value.id == u.id
              && r.value.createdAt == u.createdAt
              && r.value.updatedAt == (if TouchesRow(upd) then now else u.updatedAt)
              && r.value.username == Patch(u.username, upd.username)
              && r.value.email == Patch(u.email, upd.email)
              && r.value.firstName == Patch(u.firstName, upd.firstName)
              && r.value.lastName == Patch(u.lastName, upd.lastName)
              && r.value.isActive == Patch(u.isActive, upd.isActive)
              && r.value.role == Patch(u.role, upd.role)
    ensures r.Ok? ==>
              r.value.hashedPassword ==
                if PasswordChangeRequested(upd) then HashPassword(h, upd.newPassword.value, salt) else u.hashedPassword
  {
    var hashed :=
      if PasswordChangeRequested(upd) then
        if VerifyPassword(h, upd.oldPassword.value, u.hashedPassword)
        then Ok(HashPassword(h, upd.newPassword.value, salt))
        else Err(CredentialsException)
      else Ok(u.hashedPassword);
    var newHash :- hashed;
    Ok(u.(username := Patch(u.username, upd.username),
          email := Patch(u.email, upd.email),
          firstName := Patch(u.firstName, upd.firstName),
          lastName := Patch(u.lastName, upd.lastName),
          isActive := Patch(u.isActive, upd.isActive),
          role := Patch(u.role, upd.role),
          hashedPassword := newHash,
          updatedAt := if TouchesRow(upd) then now else u.updatedAt))
  }

  /** An update that sets nothing leaves the user as it was. */
  lemma EmptyUpdateChangesNothing(u: User, h: Hasher, salt: nat, now: int)
    ensures ApplyUpdate(u, EmptyUpdate, h, salt, now) == Ok(u)
  {
  }

  /** One password field without the other (or with the other empty) raises
      nothing and leaves the hash as it was. */
  lemma LonePasswordFieldIgnored(u: User, upd: UserUpdate, h: Hasher, salt: nat, now: int)
    requires !PasswordChangeRequested(upd)
    ensures ApplyUpdate(u, upd, h, salt, now).Ok?
    ensures ApplyUpdate(u, upd, h, salt, now).value.hashedPassword == u.hashedPassword
  {
  }

  /** The new password is not run through the password policy: a user who knows
      their password can replace it with "a", which registration would refuse. */
  lemma WeakNewPasswordAccepted(u: User, h: Hasher, password: string, salt: nat, newSalt: nat, now: int)
    requires Sound(h) && password != "" && u.hashedPassword == HashPassword(h, password, salt)
    ensures D.ValidatePassword("a").Err?
    ensures var upd := EmptyUpdate.(oldPassword := Some(password), newPassword := Some("a"));
            ApplyUpdate(u, upd, h, newSalt, now) == Ok(u.(hashedPassword := HashPassword(h, "a", newSalt), updatedAt := now))
  {
    D.ShortPasswordReportsLength("a");
  }

  /** After a successful password change the user logs in with the new password
      (the account being active and the username kept). */
  lemma ChangedPasswordAuthenticates(rows: seq<User>, nextId: nat, h: Hasher, k: nat,
                                     upd: UserUpdate, salt: nat, now: int)
    requires Sound(h) && Consistent(rows, nextId) && k < |rows|
    requires PasswordChangeRequested(upd) && upd.username.None?
    requires ApplyUpdate(rows[k], upd, h, salt, now).Ok? && ApplyUpdate(rows[k], upd, h, salt, now).value.isActive
    ensures D.AuthenticateUser(rows[k := ApplyUpdate(rows[k], upd, h, salt, now).value], h,
                               rows[k].username, upd.newPassword.value)
         == Ok(ApplyUpdate(rows[k], upd, h, salt, now).value)
  {
    var v := ApplyUpdate(rows[k], upd, h, salt, now).value;
    var rows' := rows[k := v];
    assert Consistent(rows', nextId) by {
      forall i, j | 0 <= i < j < |rows'|
        ensures rows'[i].id < rows'[j].id && rows'[i].username != rows'[j].username
      {
        assert rows[i].id < rows[j].id && rows[i].username != rows[j].username;
      }
    }
    D.AuthenticateOwnPassword(rows', nextId, h, k, upd.newPassword.value, salt);
  }

  /** `update_user` (`PATCH /users/{user_id}`): the guard, the lookup by id
      (404), the password check (401), then one commit of the patched row,
      stamped at `now` when the update set a column. No
      uniqueness check is made on username or email; a username already held by
      another row is refused by the table's unique index and nothing is written. */
  method UpdateUser(db: UserTable, userId: int, userUpdate: UserUpdate, token: Jwt, secret: string,
                    h: Hasher, salt: nat, now: int) returns (r: Result<UserPublic>)
    requires db.Valid()
    modifies db
    ensures db.Valid() && db.nextId == old(db.nextId)
    ensures D.Authorize(D.AdminOnly, old(db.rows), token, secret, now).Err? ==>
              r == Err(D.Authorize(D.AdminOnly, old(db.rows), token, secret, now).error) && unchanged(db)
    ensures (D.Authorize(D.AdminOnly, old(db.rows), token, secret, now).Ok? && IndexOfId(old(db.rows), userId).None?) ==>
              r == Err(UserNotFoundById) && unchanged(db)
    ensures (D.Authorize(D.AdminOnly, old(db.rows), token, secret, now).Ok? && IndexOfId(old(db.rows), userId).Some?) ==>
              var k := IndexOfId(old(db.rows), userId).value;
              var patched := ApplyUpdate(old(db.rows)[k], userUpdate, h, salt, now);
              && (patched.Err? ==> r == Err(patched.error) && unchanged(db))
              && (patched.Ok? && !UsernameFreeExcept(old(db.rows), k, patched.value.username) ==>
                    r == Err(StoreConflict) && unchanged(db))
              && (patched.Ok? && UsernameFreeExcept(old(db.rows), k, patched.value.username) ==>
                    r == Ok(ToPublic(patched.value)) && db.rows == old(db.rows)[k := patched.value])
  {
    var current := D.Authorize(D.AdminOnly, db.rows, token, secret, now);
    if current.Err? {
      return Err(current.error);
    }
    var found := IndexOfId(db.rows, userId);
    if found.None? {
      return Err(UserNotFoundById);
    }
    var k := found.value;
    var patched := ApplyUpdate(db.rows[k], userUpdate, h, salt, now);
    if patched.Err? {
      return Err(patched.error);
    }
    var committed := db.Save(k, patched.value);
    if !committed {
      return Err(StoreConflict);
    }
    r := Ok(ToPublic(patched.value));
  }

  /** `delete_user` (`DELETE /users/{user_id}`): the guard, the lookup by id
      (404), then removal of exactly that row. */
  method DeleteUser(db: UserTable, userId: int, token: Jwt, secret: string, now: int) returns (r: Result<()>)
    requires db.Valid()
    modifies db
    ensures db.Valid() && db.nextId == old(db.nextId)
    ensures D.Authorize(D.AdminOnly, old(db.rows), token, secret, now).Err? ==>
              r == Err(D.Authorize(D.AdminOnly, old(db.rows), token, secret, now).error) && unchanged(db)
    ensures (D.Authorize(D.AdminOnly, old(db.rows), token, secret, now).Ok? && GetUserById(old(db.rows), userId).Err?) ==>
              r == Err(UserNotFoundById) && unchanged(db)
    ensures r.Ok? <==> D.Authorize(D.AdminOnly, old(db.rows), token, secret, now).Ok? && GetUserById(old(db.rows), userId).Ok?
    ensures r.Ok? ==> |db.rows| == |old(db.rows)| - 1
    ensures r.Ok? ==> forall u :: u in db.rows <==> u in old(db.rows) && u.id != userId
  {
    var current := D.Authorize(D.AdminOnly, db.rows, token, secret, now);
    if current.Err? {
      return Err(current.error);
    }
    var found := IndexOfId(db.rows, userId);
    if found.None? {
      return Err(UserNotFoundById);
    }
    RemovedRowIsExactlyTheId(db.rows, db.nextId, found.value);
    db.Delete(found.value);
    r := Ok(());
  }

  /** Removing the row at index `k` of a consistent table removes exactly the
      rows with that row's id and keeps every other row. */
  lemma RemovedRowIsExactlyTheId(rows: seq<User>, nextId: nat, k: nat)
    requires Consistent(rows, nextId) && k < |rows|
    ensures forall u :: u in rows[..k] + rows[k + 1..] <==> u in rows && u.id != rows[k].id
  {
    var rest := rows[..k] + rows[k + 1..];
    forall u
      ensures u in rest <==> u in rows && u.id != rows[k].id
    {
      if u in rest {
        var j :| 0 <= j < |rest| && rest[j] == u;
        var i := if j < k then j else j + 1;
        assert rows[i] == u;
        assert i != k;
      }
      if u in rows && u.id != rows[k].id {
        var i :| 0 <= i < |rows| && rows[i] == u;
        assert i != k;
        if i < k {
          assert rest[i] == u;
        } else {
          assert rest[i - 1] == u;
        }
      }
    }
  }
}
