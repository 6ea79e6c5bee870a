/** The `users` entity (entities/User.java): its fields, the defaults of
    its no-argument constructor, its Bean Validation constraints, the
    unique-role rule of its join table, and what of it is stored and
    written to JSON. */
module Entities {
  import opened Common
  import opened Constraints

  /** A row of the `roles` table, e.g. ROLE_USER or ROLE_ADMIN. */
  datatype Role = Role(id: Option<int>, name: string)

  /** A user as a value: every reference field may be null. */
  datatype User = User(
    id: Option<int>,
    name: Option<string>,
    lastname: Option<string>,
    username: Option<string>,
    email: Option<string>,
    password: Option<string>,
    admin: bool,
    roles: seq<Role>)
  {
    /** isAdmin(): the getter of the transient `admin` flag. */
    predicate IsAdmin() {
      admin
    }
  }

  /** `new User()`: every reference null, `admin` false, and `roles` a
      fresh empty list. */
  function NewUser(): (u: User)
    ensures u.roles == [] && !u.IsAdmin()
    ensures u.id.None? && u.name.None? && u.lastname.None?
    ensures u.username.None? && u.email.None? && u.password.None?
  {
    User(None, None, None, None, None, None, false, [])
  }

  /** The field constraints of the entity. */
  function ValidUser(u: User, isEmail: string -> bool): (b: bool)
    ensures b ==> u.name.Some? && u.lastname.Some? && u.username.Some? && u.email.Some? && u.password.Some?
    ensures b ==> |u.name.value| > 0 && |u.lastname.value| > 0 && |u.email.value| > 0 && |u.password.value| > 0
    ensures b ==> 2 <= |u.username.value| <= 12 && isEmail(u.email.value)
  {
    && NotEmpty(u.name)
    && NotEmpty(u.lastname)
    && ValidUsername(u.username)
    && NotEmpty(u.email) && EmailField(u.email, isEmail)
    && NotEmpty(u.password)
  }

  /** The users_roles join table is unique on (user_id, role_id): a user
      never holds the same role twice. */
  function UniqueRoles(roles: seq<Role>): (b: bool)
    ensures b <==> forall i, j | 0 <= i < |roles| && 0 <= j < |roles| && i != j :: roles[i].id != roles[j].id
    ensures |roles| <= 1 ==> b
  {
    forall i, j | 0 <= i < j < |roles| :: roles[i].id != roles[j].id
  }

  /** A freshly constructed user is invalid (nothing is filled in) but
      already satisfies the unique-role rule. */
  lemma NewUserDefaults(isEmail: string -> bool)
    ensures !ValidUser(NewUser(), isEmail)
    ensures UniqueRoles(NewUser().roles)
  {
  }

  /** The columns of the `users` table. */
  datatype UserRow = UserRow(
    id: Option<int>, name: Option<string>, lastname: Option<string>,
    username: Option<string>, email: Option<string>, password: Option<string>)

  /** The properties Jackson writes when a user is returned. */
  datatype UserJson = UserJson(
    id: Option<int>, name: Option<string>, lastname: Option<string>,
    username: Option<string>, email: Option<string>, password: Option<string>,
    roles: seq<Role>)

  /** The stored row: `admin` is @Transient and roles live in users_roles. */
  function StoredRow(u: User): (row: UserRow)
    ensures row.id == u.id && row.username == u.username && row.password == u.password
    ensures row.name == u.name && row.lastname == u.lastname && row.email == u.email
  {
    UserRow(u.id, u.name, u.lastname, u.username, u.email, u.password)
  }

  /** The JSON output: `admin` is WRITE_ONLY, so it is read from requests
      but never written. The password has no such annotation. */
  function JsonView(u: User): (j: UserJson)
    ensures j.id == u.id && j.username == u.username && j.password == u.password
    ensures j.name == u.name && j.lastname == u.lastname && j.email == u.email
    ensures j.roles == u.roles
  {
    UserJson(u.id, u.name, u.lastname, u.username, u.email, u.password, u.roles)
  }

  /** Two users that differ only in `admin` are stored and written alike,
      and any other difference shows in the JSON output. */
  lemma AdminIsNeitherStoredNorWritten(u: User, v: User)
    ensures (StoredRow(u) == StoredRow(v) && JsonView(u) == JsonView(v)) <==> u.(admin := v.admin) == v
  {
  }

  /** The managed entity that a mapper updates in place: the same fields
      as `User`, as mutable state. */
  class UserEntity {
    var id: Option<int>
    var name: Option<string>
    var lastname: Option<string>
    var username: Option<string>
    var email: Option<string>
    var password: Option<string>
    var admin: bool
    var roles: seq<Role>

    /** The current field values. */
    function Value(): User
      reads this
    {
      User(id, name, lastname, username, email, password, admin, roles)
    }

    /** `new User()` */
    constructor ()
      ensures Value() == NewUser()
    {
      id, name, lastname, username, email, password := None, None, None, None, None, None;
      admin, roles := false, [];
    }
  }
}
