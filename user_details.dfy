/** UseDetailsService.loadUserByUsername: the stored user found by
    username becomes Spring Security's UserDetails, its role names the
    granted authorities, every account flag true. */
module UserDetailsLoading {
  import opened Common
  import opened Entities
  import opened UserStore
  import LoginFilter

  /** org.springframework.security.core.userdetails.User, with its
      authorities as the set it keeps them in. */
  datatype UserDetails = UserDetails(
    username: string,
    password: string,
    enabled: bool,
    accountNonExpired: bool,
    credentialsNonExpired: bool,
    accountNonLocked: bool,
    authorities: set<string>)

  datatype LoadResult =
    | Loaded(details: UserDetails)
    | UsernameNotFound(message: string)
    | IllegalArgument(message: string)  // refused by an authority or the UserDetails constructor

  function NotFoundMessage(username: string): string {
    "Username " + username + " no existe en el sistema"
  }

  const NullOrEmptyMessage: string := "Cannot pass null or empty values to constructor"

  /** The message of SimpleGrantedAuthority's hasText assertion. */
  const AuthorityTextMessage: string := "A granted authority textual representation is required"

  /** Every role name is accepted by `new SimpleGrantedAuthority(name)`. */
  predicate RoleNamesHaveText(roles: seq<Role>) {
    forall i | 0 <= i < |roles| :: HasText(roles[i].name)
  }

  /** The authority set of a user: one SimpleGrantedAuthority per role
      name, collected into the set the UserDetails keeps. */
  function Authorities(roles: seq<Role>): (a: set<string>)
    ensures forall n :: n in a <==> exists i | 0 <= i < |roles| :: roles[i].name == n
    ensures |a| <= |roles|
  {
    if roles == [] then {}
    else
      var rest := Authorities(roles[1..]);
      assert forall i | 1 <= i < |roles| :: roles[i] == roles[1..][i - 1];
      assert forall i | 0 <= i < |roles[1..]| :: roles[1..][i] == roles[i + 1];
      {roles[0].name} + rest
  }

  /** loadUserByUsername. The UserDetails carries the requested username
      and the stored password; a missing user is UsernameNotFoundException.
      Each role name then becomes a SimpleGrantedAuthority, which refuses a
      name without text, and last the UserDetails constructor refuses an
      empty username or a null password. */
  function LoadUserByUsername(users: seq<User>, username: string): (r: LoadResult)
    ensures r.UsernameNotFound? <==> forall i | 0 <= i < |users| :: users[i].username != Some(username)
    ensures r.UsernameNotFound? ==> r.message == NotFoundMessage(username)
    ensures r.Loaded? <==>
      && FindByUsername(users, username).Some?
      && RoleNamesHaveText(FindByUsername(users, username).value.roles)
      && username != [] && FindByUsername(users, username).value.password.Some?
    ensures r.IllegalArgument? ==>
      r.message == (if RoleNamesHaveText(FindByUsername(users, username).value.roles)
                    then NullOrEmptyMessage else AuthorityTextMessage)
    ensures r.Loaded? ==>
      && r.details.username == username
      && r.details.enabled && r.details.accountNonExpired
      && r.details.credentialsNonExpired && r.details.accountNonLocked
      && exists u | u in users :: && u.username == Some(username)
                                  && u.password == Some(r.details.password)
                                  && r.details.authorities == Authorities(u.roles)
    ensures r.Loaded? ==> r.details.authorities == Authorities(FindByUsername(users, username).value.roles)
    ensures r.Loaded? ==> forall n | n in r.details.authorities :: HasText(n)
  {
    match FindByUsername(users, username)
    case None => UsernameNotFound(NotFoundMessage(username))
    case Some(user) =>
      if !RoleNamesHaveText(user.roles) then IllegalArgument(AuthorityTextMessage)
      else if username == [] || user.password.None? then IllegalArgument(NullOrEmptyMessage)
      else Loaded(UserDetails(username, user.password.value, true, true, true, true, Authorities(user.roles)))
  }

  /** A stored user with a username, a password and role names with text
      is always loaded, and only a missing username fails with
      UsernameNotFound. */
  lemma StoredUserLoads(users: seq<User>, i: nat)
    requires i < |users| && users[i].username.Some? && users[i].username.value != []
    requires forall j | 0 <= j < |users| && users[j].username == users[i].username ::
      users[j].password.Some? && RoleNamesHaveText(users[j].roles)
    ensures LoadUserByUsername(users, users[i].username.value).Loaded?
  {
    var username := users[i].username.value;
    assert users[i].username == Some(username);
    var found := FindByUsername(users, username);
    assert found.Some?;
    assert found.value in users;
  }

  /** A name no role carries is not an authority. */
  lemma NameNotAmong(name: string, roles: seq<Role>)
    requires forall i | 0 <= i < |roles| :: roles[i].name != name
    ensures name !in Authorities(roles)
  {
  }

  /** Distinct role names give one authority each. */
  lemma {:induction false} DistinctNamesDistinctAuthorities(roles: seq<Role>)
    requires forall i, j | 0 <= i < j < |roles| :: roles[i].name != roles[j].name
    ensures |Authorities(roles)| == |roles|
  {
    if roles != [] {
      var rest := roles[1..];
      assert forall i | 0 <= i < |rest| :: rest[i] == roles[i + 1];
      DistinctNamesDistinctAuthorities(rest);
      NameNotAmong(roles[0].name, rest);
    }
  }

  /** However the authorities are listed when the token is issued, the
      `isAdmin` claim is true exactly when the user holds the ROLE_ADMIN
      role. */
  lemma AdminClaimMatchesRoles(roles: seq<Role>, listed: seq<string>)
    requires forall n :: n in listed <==> n in Authorities(roles)
    ensures LoginFilter.IsAdmin(listed) <==> exists i | 0 <= i < |roles| :: roles[i].name == LoginFilter.AdminAuthority
  {
  }
}
