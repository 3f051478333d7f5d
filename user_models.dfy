/** The user record and the request/response shapes built from it. */
module UserModels {
  import opened Common

  /** The closed set of roles; `Value` is the string each member stands for. */
  datatype RoleType = ADMIN | USER | TESTER {
    function Value(): string {
      match this
      case ADMIN => "Administrateur"
      case USER => "Utilisateur"
      case TESTER => "Testeur"
    }
  }

  /** A row of the `user` table. `role` holds the role's string value: the
      enumeration is a `str` enum and an update stores whatever string it is given.
      Timestamps are seconds. */
  datatype User = User(
    id: nat,
    username: string,
    email: string,
    firstName: Option<string>,
    lastName: Option<string>,
    hashedPassword: string,
    role: string,
    isActive: bool,
    createdAt: int,
    updatedAt: int)

  /** The registration body: the base fields and a plaintext password, nothing else. */
  datatype UserCreate = UserCreate(
    username: string,
    email: string,
    firstName: Option<string>,
    lastName: Option<string>,
    password: string)

  /** The update body. `None` is a field the request did not set; for the two
      nullable names, `Some(None)` is an explicit null. */
  datatype UserUpdate = UserUpdate(
    username: Option<string>,
    email: Option<string>,
    firstName: Option<Option<string>>,
    lastName: Option<Option<string>>,
    oldPassword: Option<string>,
    newPassword: Option<string>,
    isActive: Option<bool>,
    role: Option<string>)

  /** The response shape: every column but the password hash. */
  datatype UserPublic = UserPublic(
    id: nat,
    username: string,
    email: string,
    firstName: Option<string>,
    lastName: Option<string>,
    role: string,
    isActive: bool,
    createdAt: int,
    updatedAt: int)

  /** `User(**user_data, hashed_password=...)` for a registration body: the
      table's defaults fill role, activity and timestamps; the id is assigned on insert. */
  function NewUser(req: UserCreate, hashedPassword: string, now: int): (u: User)
    ensures u.role == USER.Value() && u.isActive
    ensures u.username == req.username && u.email == req.email
    ensures u.firstName == req.firstName && u.lastName == req.lastName
    ensures u.hashedPassword == hashedPassword
    ensures u.createdAt == now && u.updatedAt == now
  {
    User(0, req.username, req.email, req.firstName, req.lastName, hashedPassword,
         USER.Value(), true, now, now)
  }

  /** The `UserPublic` projection of a stored user. */
  function ToPublic(u: User): (p: UserPublic)
    ensures p.id == u.id && p.username == u.username && p.email == u.email
    ensures p.firstName == u.firstName && p.lastName == u.lastName
    ensures p.role == u.role && p.isActive == u.isActive
    ensures p.createdAt == u.createdAt && p.updatedAt == u.updatedAt
  {
    UserPublic(u.id, u.username, u.email, u.firstName, u.lastName, u.role,
               u.isActive, u.createdAt, u.updatedAt)
  }

  /** Two users that differ only in their password hash have the same public view:
      the hash never reaches a response. */
  lemma PublicViewHidesHash(u: User, hash: string)
    ensures ToPublic(u.(hashedPassword := hash)) == ToPublic(u)
  {
  }
}
