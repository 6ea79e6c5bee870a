/** The request payloads: UserSaveRequest (creation, with a password),
    UserRequest (update, without one) and LoginRequest (credentials). */
module Requests {
  import opened Common
  import opened Constraints

  datatype UserSaveRequest = UserSaveRequest(
    name: Option<string>,
    lastname: Option<string>,
    password: Option<string>,
    username: Option<string>,
    email: Option<string>,
    admin: bool)
  {
    /** isAdmin(): `admin` carries no constraint. */
    predicate IsAdmin() {
      admin
    }
  }

  datatype UserRequest = UserRequest(
    name: Option<string>,
    lastname: Option<string>,
    username: Option<string>,
    email: Option<string>,
    admin: bool)
  {
    predicate IsAdmin() {
      admin
    }
  }

  /** The login body: no constraints at all. */
  datatype LoginRequest = LoginRequest(username: Option<string>, password: Option<string>)

  /** The constraints of UserSaveRequest: every field is required. */
  function ValidSaveRequest(r: UserSaveRequest, isEmail: string -> bool): (b: bool)
    ensures b ==> r.name.Some? && r.lastname.Some? && r.password.Some? && r.username.Some? && r.email.Some?
    ensures b ==> |r.password.value| > 0 && 2 <= |r.username.value| <= 12 && isEmail(r.email.value)
  {
    && NotEmpty(r.name)
    && NotEmpty(r.lastname)
    && NotEmpty(r.password)
    && ValidUsername(r.username)
    && NotEmpty(r.email) && EmailField(r.email, isEmail)
  }

  /** The constraints of UserRequest: the same fields, without a password. */
  function ValidUserRequest(r: UserRequest, isEmail: string -> bool): (b: bool)
    ensures b ==> r.name.Some? && r.lastname.Some? && r.username.Some? && r.email.Some?
    ensures b ==> 2 <= |r.username.value| <= 12 && isEmail(r.email.value)
  {
    && NotEmpty(r.name)
    && NotEmpty(r.lastname)
    && ValidUsername(r.username)
    && NotEmpty(r.email) && EmailField(r.email, isEmail)
  }

  /** `new UserSaveRequest()`: every field missing, `admin` false. */
  function EmptySaveRequest(): UserSaveRequest {
    UserSaveRequest(None, None, None, None, None, false)
  }

  /** The payload that is rejected with 400 when every field is missing;
      one missing field is already enough, whatever `admin` says. */
  lemma MissingFieldsRejected(r: UserSaveRequest, isEmail: string -> bool)
    ensures !ValidSaveRequest(EmptySaveRequest(), isEmail)
    ensures r.name.None? || r.lastname.None? || r.password.None? || r.username.None? || r.email.None?
        ==> !ValidSaveRequest(r, isEmail)
    ensures ValidSaveRequest(r, isEmail) <==> ValidSaveRequest(r.(admin := !r.admin), isEmail)
  {
  }

  /** A creation payload is an update payload plus a non-empty password:
      the two agree on every other field. */
  lemma SaveRequestIsUserRequestWithPassword(r: UserSaveRequest, isEmail: string -> bool)
    ensures ValidSaveRequest(r, isEmail) <==>
      NotEmpty(r.password)
      && ValidUserRequest(UserRequest(r.name, r.lastname, r.username, r.email, r.admin), isEmail)
  {
  }
}
