/** The pieces of the security chain put together: a stored user logs in,
    receives a token, sends it back, and the route rules decide on the
    identity the validation filter recovers from it. */
module SecurityFlow {
  import opened Common
  import opened Jwt
  import opened Entities
  import UserStore
  import UserDetailsLoading
  import LoginFilter
  import TokenValidation
  import AccessRules

  /** The identity a user ends up with when the token issued at login is
      sent back: `listed` is the order in which the authentication manager
      hands over the loaded authorities. Deleting a user is then allowed
      exactly when the stored user holds a role named ROLE_ADMIN. */
  lemma LoginThenRequest(users: seq<User>, username: string, listed: seq<string>, now: int,
                         prefix: string, sign: Claims -> string, parse: string -> ParseResult, id: string)
    requires UserDetailsLoading.LoadUserByUsername(users, username).Loaded?
    requires forall n :: n in listed <==>
      n in UserDetailsLoading.LoadUserByUsername(users, username).details.authorities
    requires prefix != []
    requires !Occurs(prefix, sign(LoginFilter.IssueClaims(username, listed, now)))
    requires TokenValidation.ReadsBack(parse, sign(LoginFilter.IssueClaims(username, listed, now)),
                                       LoginFilter.IssueClaims(username, listed, now))
    requires id != ""
    ensures UserStore.FindByUsername(users, username).Some?
    ensures var o := TokenValidation.Validate(Some(prefix + sign(LoginFilter.IssueClaims(username, listed, now))), prefix, parse);
      && o == TokenValidation.Authenticated(Identity(Some(username), None, listed))
      && (AccessRules.AuthorizeRequest(AccessRules.DELETE, ["api", "users", id], Some(o.identity)) == AccessRules.Allow
          <==> exists i | 0 <= i < |UserStore.FindByUsername(users, username).value.roles| ::
                 UserStore.FindByUsername(users, username).value.roles[i].name == "ROLE_ADMIN")
  {
    var details := UserDetailsLoading.LoadUserByUsername(users, username).details;
    assert AllHaveText(listed) by {
      forall k | 0 <= k < |listed| ensures HasText(listed[k]) {
        assert listed[k] in details.authorities;
      }
    }
    TokenValidation.IssuedTokenAuthenticates(prefix, username, listed, now, sign, parse);
    AccessRules.WritesNeedAdmin(AccessRules.DELETE, ["api", "users", id], id, Some(Identity(Some(username), None, listed)));
  }
}
