/** The MapStruct mappers between the user entity and the payloads.
    Properties are matched by name; a target marked `ignore = true` keeps
    what `new User()` gave it. */
module Mappers {
  import opened Common
  import opened Constraints
  import opened Entities
  import opened Requests

  /** UserRequestMapper.toUserRequest: straight copy of the shared fields. */
  function ToUserRequest(u: User): (r: UserRequest)
    ensures r.name == u.name && r.lastname == u.lastname && r.username == u.username
    ensures r.email == u.email && r.IsAdmin() == u.IsAdmin()
  {
    UserRequest(u.name, u.lastname, u.username, u.email, u.admin)
  }

  /** UserRequestMapper.toUser: id, password and roles are ignored, so they
      keep the constructor's null, null and empty list. */
  function UserRequestToUser(r: UserRequest): (u: User)
    ensures u.id.None? && u.password.None? && u.roles == []
    ensures u.name == r.name && u.lastname == r.lastname && u.username == r.username
    ensures u.email == r.email && u.IsAdmin() == r.IsAdmin()
  {
    NewUser().(name := r.name, lastname := r.lastname, username := r.username,
               email := r.email, admin := r.admin)
  }

  /** UserSaveRequestMapper.toUser: id and roles are ignored. */
  function SaveRequestToUser(r: UserSaveRequest): (u: User)
    ensures u.id.None? && u.roles == []
    ensures u.name == r.name && u.lastname == r.lastname && u.username == r.username
    ensures u.email == r.email && u.password == r.password && u.IsAdmin() == r.IsAdmin()
  {
    NewUser().(name := r.name, lastname := r.lastname, username := r.username,
               email := r.email, password := r.password, admin := r.admin)
  }

  /** LoginRequestMapper.toLoginRequest: the password is never exposed. */
  function ToLoginRequest(u: User): (l: LoginRequest)
    ensures l.username == u.username && l.password.None?
  {
    LoginRequest(u.username, None)
  }

  /** LoginRequestMapper.toUser: only username and password are set. */
  function LoginRequestToUser(l: LoginRequest): (u: User)
    ensures u.username == l.username && u.password == l.password
    ensures u.id.None? && u.name.None? && u.lastname.None? && u.email.None?
    ensures u.roles == [] && !u.IsAdmin()
  {
    NewUser().(username := l.username, password := l.password)
  }

  /** The value a null-ignoring mapping leaves in a target property. */
  function KeepIfNull(incoming: Option<string>, current: Option<string>): (v: Option<string>)
    ensures incoming.Some? ==> v == incoming
    ensures incoming.None? ==> v == current
  {
    if incoming.Some? then incoming else current
  }

  /** The effect of updateUserFromRequest on a user value: non-null request
      properties overwrite, null ones leave the target alone, the primitive
      `admin` is always copied, and id, password and roles are ignored. */
  function ApplyUpdate(r: UserRequest, u: User): (v: User)
    ensures v.id == u.id && v.password == u.password && v.roles == u.roles
    ensures v.IsAdmin() == r.IsAdmin()
    ensures r.name.None? ==> v.name == u.name
    ensures r.lastname.None? ==> v.lastname == u.lastname
    ensures r.username.None? ==> v.username == u.username
    ensures r.email.None? ==> v.email == u.email
    ensures r.name.Some? ==> v.name == r.name
    ensures r.lastname.Some? ==> v.lastname == r.lastname
    ensures r.username.Some? ==> v.username == r.username
    ensures r.email.Some? ==> v.email == r.email
  {
    u.(name := KeepIfNull(r.name, u.name),
       lastname := KeepIfNull(r.lastname, u.lastname),
       username := KeepIfNull(r.username, u.username),
       email := KeepIfNull(r.email, u.email),
       admin := r.admin)
  }

  /** UserRequestMapper.updateUserFromRequest on a managed entity. */
  method UpdateUserFromRequest(r: UserRequest, user: UserEntity)
    modifies user
    ensures user.Value() == ApplyUpdate(r, old(user.Value()))
    ensures user.id == old(user.id) && user.password == old(user.password) && user.roles == old(user.roles)
  {
    if r.name.Some? {
      user.name := r.name;
    }
    if r.lastname.Some? {
      user.lastname := r.lastname;
    }
    if r.username.Some? {
      user.username := r.username;
    }
    if r.email.Some? {
      user.email := r.email;
    }
    user.admin := r.admin;
  }

  /** Applying the same request twice is applying it once. */
  lemma UpdateIdempotent(r: UserRequest, u: User)
    ensures ApplyUpdate(r, ApplyUpdate(r, u)) == ApplyUpdate(r, u)
  {
  }

  /** Updating a user from its own projection changes nothing. */
  lemma UpdateWithOwnProjection(u: User)
    ensures ApplyUpdate(ToUserRequest(u), u) == u
  {
  }

  /** With every property present, a partial update is a full overwrite:
      the user `toUser` builds, with the target's id, password and roles. */
  lemma UpdateWithCompleteRequest(r: UserRequest, u: User)
    requires r.name.Some? && r.lastname.Some? && r.username.Some? && r.email.Some?
    ensures ApplyUpdate(r, u) == UserRequestToUser(r).(id := u.id, password := u.password, roles := u.roles)
  {
  }

  /** A valid update keeps a valid user valid and keeps its roles unique. */
  lemma UpdatePreservesValidity(r: UserRequest, u: User, isEmail: string -> bool)
    requires ValidUser(u, isEmail) && UniqueRoles(u.roles)
    requires ValidUserRequest(r, isEmail)
    ensures ValidUser(ApplyUpdate(r, u), isEmail) && UniqueRoles(ApplyUpdate(r, u).roles)
  {
  }

  /** toUserRequest inverts toUser. */
  lemma UserRequestRoundTrip(r: UserRequest)
    ensures ToUserRequest(UserRequestToUser(r)) == r
  {
  }

  /** toUser inverts toUserRequest up to the three ignored properties. */
  lemma UserProjectionRoundTrip(u: User)
    ensures UserRequestToUser(ToUserRequest(u)) == u.(id := None, password := None, roles := [])
  {
  }

  /** A valid creation payload becomes a valid user with no roles yet. */
  lemma SaveRequestGivesValidUser(r: UserSaveRequest, isEmail: string -> bool)
    requires ValidSaveRequest(r, isEmail)
    ensures ValidUser(SaveRequestToUser(r), isEmail) && UniqueRoles(SaveRequestToUser(r).roles)
  {
  }

  /** A valid update payload lacks only a password to be a valid user. */
  lemma UserRequestGivesValidUserWithPassword(r: UserRequest, password: string, isEmail: string -> bool)
    requires ValidUserRequest(r, isEmail) && |password| > 0
    ensures ValidUser(UserRequestToUser(r).(password := Some(password)), isEmail)
    ensures !ValidUser(UserRequestToUser(r), isEmail)
  {
  }

  /** toLoginRequest inverts the login toUser, except that the password is
      withheld. */
  lemma LoginRoundTrip(l: LoginRequest)
    ensures ToLoginRequest(LoginRequestToUser(l)) == l.(password := None)
  {
  }
}
