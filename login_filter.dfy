/** JwtAuthenticationFilter: reads the login body, delegates the
    credential check, and on success issues a one-hour token in a header
    and a JSON body; on failure writes a 401 JSON body. */
module LoginFilter {
  import opened Common
  import opened Requests
  import opened Jwt
  import AuthorityJson

  /** Tokens expire one hour (3600000 ms) after they are issued. */
  const TokenLifetimeMillis: int := 3600000

  const AdminAuthority: string := "ROLE_ADMIN"

  /** The UsernamePasswordAuthenticationToken handed to the manager. */
  datatype Credentials = Credentials(username: Option<string>, password: Option<string>)

  /** What AuthenticationManager.authenticate produces: the principal's
      username and its granted authorities, or an AuthenticationException. */
  datatype AuthResult =
    | Authenticated(principal: string, authorities: seq<string>)
    | AuthFailed(message: Option<string>)

  /** The login body as Jackson's readValue left it. */
  datatype LoginBody =
    | BodyRead(request: LoginRequest)  // a JSON object, bound to a LoginRequest
    | NullLiteral                      // the JSON literal `null`: readValue returns null
    | Unreadable                       // readValue threw a StreamRead, Databind or IO exception

  /** What attemptAuthentication does with the body. */
  datatype Attempt =
    | Attempted(credentials: Credentials, result: AuthResult)
    | NullPointer  // getUsername() on a null request; no catch clause takes it, so it leaves the filter

  /** attemptAuthentication. An unreadable body is only logged: the
      credentials stay null and authentication is still attempted. A body
      read as null fails on the first getter, before any attempt. */
  method AttemptAuthentication(body: LoginBody, authenticate: Credentials -> AuthResult)
    returns (attempt: Attempt)
    ensures attempt.NullPointer? <==> body.NullLiteral?
    ensures body.Unreadable? ==> attempt.credentials == Credentials(None, None)
    ensures body.BodyRead? ==>
      attempt.Attempted? && attempt.credentials == Credentials(body.request.username, body.request.password)
    ensures attempt.Attempted? ==> attempt.result == authenticate(attempt.credentials)
  {
    var username: Option<string> := None;
    var password: Option<string> := None;
    if body.NullLiteral? {
      attempt := NullPointer;
      return;
    }
    if body.BodyRead? {
      username := body.request.username;
      password := body.request.password;
    }
    var credentials := Credentials(username, password);
    attempt := Attempted(credentials, authenticate(credentials));
  }

  /** The login claims mark an administrator: ROLE_ADMIN is among the
      granted authorities. */
  function IsAdmin(roles: seq<string>): (b: bool)
    ensures b <==> AdminAuthority in roles
  {
    exists i | 0 <= i < |roles| :: roles[i] == AdminAuthority
  }

  /** The claims signed at login, issued at `now`. */
  function IssueClaims(username: string, roles: seq<string>, now: int): (c: Claims)
    ensures c.subject == Some(username) && c.username == Some(username)
    ensures c.isAdmin == Some(AdminAuthority in roles)
    ensures c.authorities.Some?
    ensures AllHaveText(roles) ==> AuthorityJson.Decode(c.authorities.value) == Some(roles)
    ensures !AllHaveText(roles) ==> AuthorityJson.Decode(c.authorities.value).None?
    ensures c.issuedAt == Some(now) && c.expiration.Some?
    ensures c.expiration.value - c.issuedAt.value == TokenLifetimeMillis
  {
    AuthorityJson.DecodeEncode(roles);
    Claims(
      subject := Some(username),
      username := Some(username),
      isAdmin := Some(IsAdmin(roles)),
      authorities := Some(AuthorityJson.Encode(roles)),
      issuedAt := Some(now),
      expiration := Some(now + TokenLifetimeMillis))
  }

  /** The greeting of a successful login. */
  function Greeting(username: string): string {
    "Hola " + username + " has iniciado sesion con exito"
  }

  /** The JSON body of a successful login. */
  function SuccessBody(jwt: string, username: string): (body: JsonObject)
    ensures body.Keys == {"token", "username", "message"}
    ensures body["token"] == JString(jwt) && body["username"] == JString(username)
    ensures body["message"] == JString(Greeting(username))
  {
    map["token" := JString(jwt), "username" := JString(username), "message" := JString(Greeting(username))]
  }

  /** The JSON body of a failed login. */
  function FailureBody(now: int, message: Option<string>, servletPath: string): (body: JsonObject)
    ensures body.Keys == {"timestamp", "status", "error", "message", "path"}
    ensures body["status"] == JInt(401) && body["error"] == JString("Unauthorized")
    ensures body["message"] == StringOrNull(message) && body["path"] == JString(servletPath)
    ensures body["timestamp"] == JInt(now)
  {
    map["timestamp" := JInt(now), "status" := JInt(401), "error" := JString("Unauthorized"),
        "message" := StringOrNull(message), "path" := JString(servletPath)]
  }

  /** successfulAuthentication: signs the claims, adds the header, writes
      the body and sets status 200. The token is returned for the caller's
      reasoning. */
  method SuccessfulAuthentication(ex: Exchange, config: TokenConfig, principal: string, roles: seq<string>,
                                  now: int, sign: Claims -> string)
    returns (jwt: string)
    modifies ex
    ensures jwt == sign(IssueClaims(principal, roles, now))
    ensures ex.headers == old(ex.headers) + [(config.headerName, config.prefix + jwt)]
    ensures ex.written == old(ex.written) + [SuccessBody(jwt, principal)]
    ensures ex.status == 200 && ex.contentType == Some(config.contentType)
    ensures ex.chainCalls == old(ex.chainCalls) && ex.authentication == old(ex.authentication)
  {
    var claims := IssueClaims(principal, roles, now);
    jwt := sign(claims);
    ex.headers := ex.headers + [(config.headerName, config.prefix + jwt)];
    ex.written := ex.written + [SuccessBody(jwt, principal)];
    ex.contentType := Some(config.contentType);
    ex.status := 200;
  }

  /** unsuccessfulAuthentication: writes the error body, status 401. */
  method UnsuccessfulAuthentication(ex: Exchange, config: TokenConfig, message: Option<string>,
                                    servletPath: string, now: int)
    modifies ex
    ensures ex.written == old(ex.written) + [FailureBody(now, message, servletPath)]
    ensures ex.status == 401 && ex.contentType == Some(config.contentType)
    ensures ex.headers == old(ex.headers)
    ensures ex.chainCalls == old(ex.chainCalls) && ex.authentication == old(ex.authentication)
  {
    var body: JsonObject := map[];
    body := body["timestamp" := JInt(now)];
    body := body["status" := JInt(401)];
    body := body["error" := JString("Unauthorized")];
    body := body["message" := StringOrNull(message)];
    body := body["path" := JString(servletPath)];
    ex.written := ex.written + [body];
    ex.contentType := Some(config.contentType);
    ex.status := 401;
  }

  /** The token in the body is the one in the header: stripping the prefix
      from the header value gives it back, as long as the compact token
      does not itself contain the prefix. */
  lemma HeaderCarriesBodyToken(config: TokenConfig, jwt: string, username: string)
    requires config.prefix != [] && !Occurs(config.prefix, jwt)
    ensures StartsWith(config.prefix + jwt, config.prefix)
    ensures SuccessBody(jwt, username)["token"] == JString(RemoveAll(config.prefix + jwt, config.prefix))
  {
    PrefixStripRoundTrip(config.prefix, jwt);
  }
}
