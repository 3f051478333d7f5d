# Orange plan manager backend: authentication and authorization core, in Dafny

This project models the user-management backend of the Orange plan manager, a
FastAPI service. It covers:

- the `User` record and its request and response shapes;
- password hashing and the HS256 bearer-token codec;
- the lookups, authentication and the `Depends` guard chain (current user,
  active user, role checker);
- the password policy and the uniqueness check;
- the `/auth` endpoints: register, login, refresh and `/me`;
- the `/users` endpoints: list, get, patch and delete;
- the two seeding scripts: `create_admin_user` and
  `create_id_profiles_and_plans`.

Each endpoint is modelled as a function or method that returns either a value or
the `HTTPException` the source raises (`Exceptions.Result`). The status, detail
and `WWW-Authenticate: Bearer` flag of each error are those of the source.

## Modelling choices

- **User table.** It is the class `UserStore.UserTable`. Its fields are the rows,
  a `seq<User>` in primary-key order, and the serial counter. Insert, commit of
  one row and delete are methods that reassign those fields. `.first()` is the
  first match in row order. The queries name no `ORDER BY`, so the database
  promises no order; the model fixes primary-key order (see "Left out").
- **Table integrity.** `UserStore.Consistent` states the table's integrity: ids
  increase and stay below the counter, and usernames are unique (the column is
  `unique=True`). Email is only indexed, so two rows may share an email.
- **Password hashing.** bcrypt is a `Hasher`, a pair of function values. The
  random salt is an argument. bcrypt's one promise, that a password verifies
  against its own hash, is the predicate `Encoders.Sound`. It is a hypothesis of
  the lemmas that need it, never an axiom.
- **Tokens.** A token is modelled by what it carries: the header's algorithm, the
  signing key and the claim map. Checking the signature is comparing the key
  with the server secret. Decoding follows PyJWT's order:
  1. a token that does not parse, names another algorithm or has a bad signature
     gives 401 "Could not validate credentials";
  2. an `exp` that is not a time gives the same 401;
  3. `exp <= now` gives 401 "Token expired.".
- **Time.** The clock is an explicit `now`, in seconds. The token lifetimes are
  15 minutes (900 s) and 7 days (604800 s).
- **Roles.** The stored role is a string. `RoleType` is a `str` enumeration, and
  `update_user` stores any string it is given.
- **Update body.** Each field of the update body is an `Option`, where `None`
  means "not set". The two nullable names can be set to an explicit null.
- **Commit-time behaviour of `update_user`.**
  - The session's before-flush hook (`backend/app/db/session.py:18-21`) stamps
    `updated_at` on every dirty row. A patch that sets any column therefore gets
    `updated_at = now`. A patch that sets nothing leaves the row as it was.
  - A patch that gives a row a username another row holds is refused by the
    unique index. The error is not caught, so the client gets a 500 and nothing
    is written.
- **Password changes (the model follows the code).** A new password set through
  `PATCH /users/{id}` is hashed but not run through the password policy. Running
  the policy on an update is the intended behaviour, but the code does not do it.
  `UsersRouter.WeakNewPasswordAccepted` states the code's behaviour.
- **Seeding tables.** The seed script sets only `name` on `IDProfile` and
  `PlanTarifaire` rows and reads only their `id` (and the `plans`
  relationship), so both tables are modelled as a serial id and a name, a
  `ProfilePlanSeed.Table` of `NamedRow`s; their other columns are not modelled. The link table is
  a sequence of `Link`s.
- **The duplicated dict key.** `profile_plan_mapping` is a dict display that
  writes the key "Homenet Prepaid" twice. Python keeps the key at its first
  position and gives it the last value, `["Homenet"]`. `ProfilePlanSeed.DictItems`
  models these dict-display semantics. The profile "Homenet Prepaid" is
  therefore linked to the plan "Homenet" and never, by this script, to the plan
  "Homenet Prepaid".
- **The seed script as a method.** The script's two get-or-create loops and its
  nested link loops (with their `continue`s) are methods with loop invariants.
  Each is proved equal to a fold (`GetOrCreateAll`, `LinkAll`), and the
  properties of the whole script are proved about `Seed`.

## Model

| member | source | states |
|---|---|---|
| Common.FirstMatch | backend/app/utilities/dependencies.py:40 | `.first()`: the index found is the least one whose row matches; none is found exactly when no row matches |
| UserModels.NewUser | backend/app/models/user_models.py:22-32 | a registered user takes the table defaults (role "Utilisateur", active, both timestamps the insert time) and the request's names, email and the given hash |
| UserModels.ToPublic | backend/app/models/user_models.py:50-55 | the response shape carries every column of the row except the hash |
| UserModels.PublicViewHidesHash | backend/app/models/user_models.py:50-55 | two rows that differ only in their hash give the same response |
| Encoders.VerifyPassword | backend/app/utilities/encoders.py:20-21 | with a sound hasher, a stored hash made from the offered password, under any salt, is accepted |
| Encoders.HashPassword | backend/app/utilities/encoders.py:24-25 | for a sound hasher, the password verifies against its own hash, whatever the salt |
| Encoders.EncodeToken | backend/app/utilities/encoders.py:28-32 | the token is signed with HS256 under the secret; its claims are the caller's plus `exp = now + delta`, with every other claim kept |
| Encoders.DecodeToken | backend/app/utilities/encoders.py:35-44 | the claims come back exactly when the token is well signed and not expired; an expired token gives the token-expired 401, and anything else the credentials 401 |
| Encoders.DecodeEncoded | backend/app/utilities/encoders.py:28-44 | round trip: an encoded token decodes to its claims plus `exp` before `exp`, and as expired from `exp` on |
| Encoders.ForeignKeyRejected | backend/app/utilities/encoders.py:37-44 | a token signed under another key is refused as bad credentials, even when expired |
| Encoders.OnlyHs256Accepted | backend/app/utilities/encoders.py:37 | a token naming any algorithm other than HS256 is refused |
| UserStore.IndexOfUsername | backend/app/utilities/dependencies.py:40 | the first row with the username; none exactly when no row has it |
| UserStore.IndexOfEmail | backend/app/routers/auth.py:42 | the first row with the email; none exactly when no row has it |
| UserStore.IndexOfId | backend/app/routers/users.py:27 | a row with the primary key; none exactly when no row has it |
| UserStore.UniqueUsernameLookup | backend/app/models/user_models.py:16 | in a consistent table, looking up a row's username finds that very row |
| UserStore.UserTable.Add | backend/app/routers/auth.py:52-54 | insert: the row gets the next serial id, is appended, and the table stays consistent |
| UserStore.UserTable.Save | backend/app/routers/users.py:77-79 | commit of row `k`: written exactly when no other row holds its username; otherwise nothing changes |
| UserStore.UserTable.Delete | backend/app/routers/users.py:92-93 | delete: row `k` is removed, the others keep their order, and the table stays consistent |
| Dependencies.GetUser | backend/app/utilities/dependencies.py:26-49 | a stored row with that username exactly when one exists, else 404 "User not found" |
| Dependencies.GetUserByEmail | backend/app/utilities/dependencies.py:52-75 | a stored row with that email exactly when one exists (the first in the model's row order), else 404 |
| Dependencies.GetUserFindsRow | backend/app/utilities/dependencies.py:40-49 | in a consistent table, `get_user` returns the very row holding the username |
| Dependencies.AuthenticateUser | backend/app/utilities/dependencies.py:78-107 | 404 exactly for an unknown username; 423 exactly for an inactive account; 401 exactly for an active account and a wrong password; success exactly when the row `get_user` finds is active and its hash verifies, and then that row is returned unchanged |
| Dependencies.InactiveLockedWhateverPassword | backend/app/utilities/dependencies.py:93-100 | an inactive account is locked whatever password is offered; the outcome does not depend on the password |
| Dependencies.AuthenticateOwnPassword | backend/app/utilities/dependencies.py:93-107 | an active user offering the password their hash was made from is authenticated as that row |
| Dependencies.Subject | backend/app/utilities/dependencies.py:128-132 | the subject is the `sub` claim when it is a non-empty string, and absent otherwise |
| Dependencies.GetCurrentUser | backend/app/utilities/dependencies.py:110-137 | decode errors propagate; a missing or empty subject gives the credentials 401; otherwise the user is re-read from the table by the subject |
| Dependencies.CurrentUserIgnoresRoleClaim | backend/app/utilities/dependencies.py:127-135 | the role carried in a token has no say in which user is resolved |
| Dependencies.GetCurrentActiveUser | backend/app/utilities/dependencies.py:140-163 | the user passes exactly when active; otherwise 400 "Inactive user" |
| Dependencies.RoleChecker.Call | backend/app/utilities/dependencies.py:241-261 | the user passes exactly when their role is listed or the list holds "*"; otherwise 403 |
| Dependencies.Authorize | backend/app/utilities/dependencies.py:241 | the guard chain: token errors, then 400 for an inactive user, then the role check; whoever passes is a stored, active user with an admitted role |
| Dependencies.AdminOnlyAdmitsAdmins | backend/app/routers/auth.py:32 | whoever passes the admin guard is a stored, active user whose role is "Administrateur" |
| Dependencies.AdminGuardRefusesOtherRoles | backend/app/utilities/dependencies.py:241-261 | an active, stored user whose role is "Utilisateur" or "Testeur" is refused by the admin guard with 403 |
| Dependencies.RoleCheckerWildcard | backend/app/utilities/dependencies.py:254 | "*" admits every active user; without it, an unlisted role is refused with 403 |
| Dependencies.ValidatePassword | backend/app/utilities/dependencies.py:166-194 | accepted exactly when the password meets the whole policy (checked against an independent statement of it); otherwise a 400 carrying the message of the first broken rule in list order |
| Dependencies.ShortPasswordReportsLength | backend/app/utilities/dependencies.py:176-177 | a password under six characters is reported for its length, whatever else it lacks |
| Dependencies.CheckUniqueConstraint | backend/app/utilities/dependencies.py:197-227 | 409 exactly when a row other than the excluded id holds the value, with the source's message |
| Dependencies.UniqueCheckExcludesOwnRow | backend/app/utilities/dependencies.py:217-221 | excluding a row's own id lets it keep its username; without the exclusion the check fails |
| AuthRouter.IssueTokens | backend/app/routers/auth.py:75-88 | the access token decodes to subject, role and `exp = now + 900`; the refresh token to subject and `exp = now + 604800`; each is expired at its `exp` |
| AuthRouter.LoginForAccessToken | backend/app/routers/auth.py:61-88 | succeeds exactly when authentication does, with authentication's error otherwise; the tokens carry the username and the stored role |
| AuthRouter.RawSubject | backend/app/routers/auth.py:93-95 | the `sub` claim when it is a string, the empty string included |
| AuthRouter.RefreshToken | backend/app/routers/auth.py:91-110 | decode errors propagate; a missing subject gives 404, and so does a subject no row holds; otherwise a fresh pair for the stored user. Activity is not checked |
| AuthRouter.RefreshCarriesCurrentRole | backend/app/routers/auth.py:103-105 | the new access token carries the role the row holds now, for an active or an inactive user |
| AuthRouter.RefreshAcceptsAccessToken | backend/app/routers/auth.py:91-110 | an unexpired access token is accepted as a refresh token, and the pair it yields carries the role the row holds at refresh time |
| AuthRouter.ReadUsersMe | backend/app/routers/auth.py:113-117 | the errors of `get_current_user` pass through (401 for a bad or expired token, 404 for an unknown subject); a resolved but inactive user gets 400; otherwise the public view of the current user |
| AuthRouter.CreateUser | backend/app/routers/auth.py:29-58 | only an admin passes; then a taken username (409), a taken email (409) and a weak password (400) are refused in that order, with nothing written; otherwise exactly one row is appended with role "Utilisateur" and the hash of the password |
| UsersRouter.GetUserById | backend/app/routers/users.py:26-33 | a stored row with that id exactly when one exists, else 404 "User not found." |
| UsersRouter.ListUsers | backend/app/routers/users.py:36-42 | for an admin, the public view of every row, in the model's primary-key order; otherwise the guard's error |
| UsersRouter.GetUser | backend/app/routers/users.py:45-53 | the guard, then the public view of the row with that id, or 404 |
| UsersRouter.ApplyUpdate | backend/app/routers/users.py:65-79 | 401 exactly when both password fields are given and the old one fails; otherwise each set field replaces the column, the hash changes only on a requested change, and `updated_at` becomes `now` exactly when some column was set |
| UsersRouter.EmptyUpdateChangesNothing | backend/app/routers/users.py:65-79 | a patch that sets nothing leaves the row as it was, `updated_at` included |
| UsersRouter.LonePasswordFieldIgnored | backend/app/routers/users.py:67 | one password field without the other raises nothing and keeps the hash |
| UsersRouter.WeakNewPasswordAccepted | backend/app/routers/users.py:67-71 | a password the policy refuses is accepted as a new password by the update |
| UsersRouter.ChangedPasswordAuthenticates | backend/app/routers/users.py:67-79 | for an active account and a patch that requests a password change and keeps the username, after the change the user authenticates with the new password |
| UsersRouter.UpdateUser | backend/app/routers/users.py:56-82 | the guard, 404, then 401, then one commit: the patched row replaces the old one, or a username clash gives 500 with nothing written |
| UsersRouter.DeleteUser | backend/app/routers/users.py:85-96 | the guard, 404, then exactly the rows with that id disappear, and every other row stays |
| UsersRouter.RemovedRowIsExactlyTheId | backend/app/routers/users.py:91-93 | in a consistent table, removing row `k` removes exactly the rows with its id |
| CreateAdmin.AdminUser | backend/app/scripts/create_admin.py:25-31 | the row the script builds has role "Administrateur", is active, and has the given username, email and hash |
| CreateAdmin.CreateAdminUser | backend/app/scripts/create_admin.py:13-34 | the table after the script: unchanged when the username is taken, else one admin row appended; consistency is kept |
| CreateAdmin.AfterCreateAdminShape | backend/app/scripts/create_admin.py:17-33 | afterwards the username is held, the table is consistent, and a new row is added only when the name was free |
| CreateAdmin.CreateAdminIdempotent | backend/app/scripts/create_admin.py:17-21 | a second run with the same username changes nothing, whatever its email, password or salt |
| CreateAdmin.CreatedAdminPassesGuard | backend/app/scripts/create_admin.py:24-33 | for a non-empty username that was free, the created admin logs in with the given password, and the access token passes the admin guard until it expires (an empty username is stored but refused by `get_current_user`) |
| ProfilePlanSeed.IndexOfKey | backend/app/scripts/create_id_profile_plan_tarifaire.py:96-164 | the first item with the key; none exactly when no item has it |
| ProfilePlanSeed.DictSetLookup | backend/app/scripts/create_id_profile_plan_tarifaire.py:96-164 | after `d[k] = v`, looking up `k` gives `v`, and any other key gives what it gave before |
| ProfilePlanSeed.DictItemsLookup | backend/app/scripts/create_id_profile_plan_tarifaire.py:96-164 | looking a key up in a dict display gives the value last written for it |
| ProfilePlanSeed.DictSetKeysUnique | backend/app/scripts/create_id_profile_plan_tarifaire.py:96-164 | `d[k] = v` keeps every key once |
| ProfilePlanSeed.DictItemsKeysUnique | backend/app/scripts/create_id_profile_plan_tarifaire.py:197 | `items()` yields each profile once, even with a key written twice |
| ProfilePlanSeed.HomenetPrepaidMapping | backend/app/scripts/create_id_profile_plan_tarifaire.py:130-154 | "Homenet Prepaid" maps to ["Homenet"] only; its earlier entry is lost |
| ProfilePlanSeed.IndexOfName | backend/app/scripts/create_id_profile_plan_tarifaire.py:174-175 | the first row with the name; none exactly when no row has it |
| ProfilePlanSeed.IndexOfNameAppend | backend/app/scripts/create_id_profile_plan_tarifaire.py:174-180 | inserting a row leaves every earlier first match where it was, and a new name is found at the new row |
| ProfilePlanSeed.GetOrCreateAllGrows | backend/app/scripts/create_id_profile_plan_tarifaire.py:173-194 | the loop keeps existing rows as a prefix and inserts only rows for listed names that had none, one per name, with consecutive fresh ids |
| ProfilePlanSeed.GetOrCreateAllCovers | backend/app/scripts/create_id_profile_plan_tarifaire.py:173-194 | after the loop, every listed name has a row |
| ProfilePlanSeed.GetOrCreateAllValid | backend/app/scripts/create_id_profile_plan_tarifaire.py:173-194 | the loop keeps ids increasing and below the counter |
| ProfilePlanSeed.GetOrCreateAllStable | backend/app/scripts/create_id_profile_plan_tarifaire.py:173-194 | when every listed name already has a row, the loop changes nothing |
| ProfilePlanSeed.GetOrCreateAllIdempotent | backend/app/scripts/create_id_profile_plan_tarifaire.py:173-194 | running the loop twice is running it once |
| ProfilePlanSeed.IdsByNameStep | backend/app/scripts/create_id_profile_plan_tarifaire.py:182 | one get-or-create step adds the name to the dict with the id found or created, and leaves the other names as they were |
| ProfilePlanSeed.FillTable | backend/app/scripts/create_id_profile_plan_tarifaire.py:169-194 | the loop's table is the get-or-create fold, and its dict maps each listed name to the id of the name's first row |
| ProfilePlanSeed.LinkAllSnoc | backend/app/scripts/create_id_profile_plan_tarifaire.py:203-219 | the link fold over one more pair is one more link step |
| ProfilePlanSeed.LinkAllGrows | backend/app/scripts/create_id_profile_plan_tarifaire.py:203-219 | the link loops keep existing links, add only links of pairs whose two names are known, and never add a link twice |
| ProfilePlanSeed.LinkAllComplete | backend/app/scripts/create_id_profile_plan_tarifaire.py:203-219 | afterwards, every pair whose two names are known is linked |
| ProfilePlanSeed.LinkAllStable | backend/app/scripts/create_id_profile_plan_tarifaire.py:213-219 | when every such link exists, the link loops change nothing |
| ProfilePlanSeed.LinkAllSkipsUnknownProfile | backend/app/scripts/create_id_profile_plan_tarifaire.py:198-201 | an unknown profile adds no link at all |
| ProfilePlanSeed.PairsContains | backend/app/scripts/create_id_profile_plan_tarifaire.py:197-203 | every (profile, plan) of the items is visited |
| ProfilePlanSeed.LinkMapping | backend/app/scripts/create_id_profile_plan_tarifaire.py:197-219 | the nested loops, with their `continue`s, compute the link fold over the items' pairs |
| ProfilePlanSeed.IdsByNameResolve | backend/app/scripts/create_id_profile_plan_tarifaire.py:182 | each id in a name dict is the id of a row of the table |
| ProfilePlanSeed.IdStillThere | backend/app/scripts/create_id_profile_plan_tarifaire.py:173-194 | an id present before the loop is present after it |
| ProfilePlanSeed.SeedPreservesValid | backend/app/scripts/create_id_profile_plan_tarifaire.py:166-221 | the script keeps ids serial, links unique, and every link between an existing profile and an existing plan |
| ProfilePlanSeed.SeedLinksMapping | backend/app/scripts/create_id_profile_plan_tarifaire.py:166-221 | for every mapped pair whose profile and plan are listed, both rows exist and are linked |
| ProfilePlanSeed.SeedIdempotent | backend/app/scripts/create_id_profile_plan_tarifaire.py:166-221 | running the script twice is running it once |
| ProfilePlanSeed.SeedLinksLookup | backend/app/scripts/create_id_profile_plan_tarifaire.py:197-219 | a profile the dict maps to a listed plan ends up linked to it |
| ProfilePlanSeed.HomenetPrepaidLinkedToHomenet | backend/app/scripts/create_id_profile_plan_tarifaire.py:152-154 | with the script's own constants, profile "Homenet Prepaid" ends up linked to plan "Homenet" |
| ProfilePlanSeed.PairsFrom | backend/app/scripts/create_id_profile_plan_tarifaire.py:197-203 | every (profile, plan) visited comes from some entry of the items |
| ProfilePlanSeed.PairsOfKey | backend/app/scripts/create_id_profile_plan_tarifaire.py:197-203 | with unique keys, a profile is visited only with plans of its looked-up list, and not at all when it is not a key |
| ProfilePlanSeed.UnmappedPairNotLinked | backend/app/scripts/create_id_profile_plan_tarifaire.py:197-219 | no visited pair yields the link of a profile to a plan outside its dict value |
| ProfilePlanSeed.SeedAddsOnlyMappedLinks | backend/app/scripts/create_id_profile_plan_tarifaire.py:166-221 | a listed profile is linked after the script to a listed plan outside its dict value only if it was linked before |
| ProfilePlanSeed.HomenetPrepaidNotLinkedToHomenetPrepaid | backend/app/scripts/create_id_profile_plan_tarifaire.py:130 | with the script's own constants, the script never adds the link from profile "Homenet Prepaid" to plan "Homenet Prepaid": the entry at line 130 is overwritten |
| ProfilePlanSeed.ReferenceStore.CreateIdProfilesAndPlansFrom | backend/app/scripts/create_id_profile_plan_tarifaire.py:166-222 | the three tables after the script are `Seed` of the tables before |
| ProfilePlanSeed.ReferenceStore.CreateIdProfilesAndPlans | backend/app/scripts/create_id_profile_plan_tarifaire.py:7-164 | the same, with the script's two name lists and the items of its mapping |

## Left out

- Dependencies.CheckUniqueConstraint: the source function takes any model and
  any field; the model covers only the two columns of the user table it is
  called on, `username` and `email`.
- Row order of unordered queries is not modelled: `select(User)` and the
  `.first()` lookups on non-unique columns have no `ORDER BY`, so the database
  may return rows in any order (an updated row often moves to the end of a
  scan). The model reads rows in primary-key order throughout.
- Dependencies.GetUserByEmail: states which row is returned (the first in
  primary-key order) where the database only promises some row with that email.
- UsersRouter.ListUsers: states the rows in primary-key order where the
  database only promises the same rows in some order.
- Request validation by pydantic is not modelled: 422 responses, `EmailStr`,
  `max_length=100` and the types of the form fields.
- Extraction of the bearer token from the `Authorization` header is not
  modelled, including the 401 "Not authenticated" when the header is missing.
  The token is a parameter.
- The `if not user` branches of `login_for_access_token` and `refresh_token` are
  not modelled. They cannot be taken, because the calls before them return a
  user or raise.
- Parts of PyJWT are not modelled: the `nbf`, `iat`, `iss` and `aud` claims,
  leeway, and the check (in recent PyJWT versions) that `sub` is a string.
  Under that check, a non-string `sub` would be refused at decode time instead
  of matching no user.
- The internals of bcrypt are not modelled: its 72-byte limit, hash format and
  timing. `Encoders.HashPassword` promises only what a sound hasher gives.
- Database types are not modelled. A role string that is not one of the three
  values is stored as given. The database's enumeration column and the
  `UserPublic` response validation, which would refuse it, are not modelled.
- An explicit `null` for username, email, `is_active` or role in an update body
  is not representable. It would fail at commit on a NOT NULL column.
- Transactions, sessions and concurrent requests are not modelled. Each call
  sees the table as the previous call left it.
- Timestamps are whole seconds and the clock is the `now` parameter. Time zones
  are not modelled.
- Logging, `print`, CORS, `main.py`, `backend/app/utilities/shortcuts.py` and
  the engine set-up in `backend/app/db/session.py` are not part of this model.
  Of `session.py`, only the before-flush hook is modelled.
- `ADMIN_EXCEPTION` is defined but not used by the modelled code.
- The `argparse` front end of `create_admin.py` and the `__main__` blocks are not
  modelled.
- The `IDProfile`, `PlanTarifaire` and `PlanTarifaireIDProfile` model files are
  not part of this model. Their tables are modelled as an id and a name, with no
  unique constraint on the name.
- The seed script commits the links once at the end. Its existence query sees
  links added earlier in the same run through SQLAlchemy's autoflush, so the
  model treats the link table as updated immediately.
- Encoders.HashPassword: does not state that two hashes of one password differ
  (bcrypt's random salt), because that is a property of the salt source, which
  is a parameter here.
