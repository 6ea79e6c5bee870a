/** The authorization rules of SpringSecurityConfig.filterChain: an ordered
    table of (verb, path patterns) -> requirement, decided by the first
    rule that matches. */
module AccessRules {
  import opened Common

  datatype HttpMethod = GET | HEAD | POST | PUT | PATCH | DELETE | OPTIONS | TRACE

  /** One element of a path pattern: a literal segment, a `{variable}`
      (exactly one non-empty segment), or a trailing `**` (any number of
      further segments, none included). */
  datatype PatternElement = Literal(text: string) | Variable | AnySuffix

  type PathPattern = seq<PatternElement>

  /** A request path as its segments: "/api/users/5" is ["api", "users", "5"]. */
  type RequestPath = seq<string>

  /** permitAll(), authenticated(), hasRole / hasAnyRole(roles). */
  datatype Requirement = PermitAll | Authenticated | HasAnyRole(roles: seq<string>)

  /** requestMatchers([verb,] patterns...) or anyRequest(). */
  datatype Matcher = AnyRequest | Paths(verb: Option<HttpMethod>, patterns: seq<PathPattern>)

  datatype Rule = Rule(matcher: Matcher, requirement: Requirement)

  datatype DenyReason = Anonymous | MissingAuthority | NoMatchingRule

  datatype Decision = Allow | Deny(reason: DenyReason)

  /** hasRole("X") checks for the authority "ROLE_X". */
  const RolePrefix: string := "ROLE_"

  /** Spring's path patterns on pre-split paths: literals match equal segments,
      a variable any one non-empty segment, a trailing `**` the rest. */
  function PatternMatches(pattern: PathPattern, path: RequestPath): (b: bool)
    ensures pattern == [] ==> (b <==> path == [])
    ensures b ==> |path| + 1 >= |pattern|
    ensures b && (forall i | 0 <= i < |pattern| :: !pattern[i].AnySuffix?) ==> |path| == |pattern|
    ensures b && pattern != [] && pattern[0].Literal? ==> path != [] && path[0] == pattern[0].text
    decreases |pattern|
  {
    if pattern == [] then path == []
    else match pattern[0]
      case AnySuffix => |pattern| == 1
      case Variable => path != [] && path[0] != "" && PatternMatches(pattern[1..], path[1..])
      case Literal(t) => path != [] && path[0] == t && PatternMatches(pattern[1..], path[1..])
  }

  predicate AnyPatternMatches(patterns: seq<PathPattern>, path: RequestPath) {
    exists k | 0 <= k < |patterns| :: PatternMatches(patterns[k], path)
  }

  predicate RuleMatches(rule: Rule, verb: HttpMethod, path: RequestPath) {
    match rule.matcher
    case AnyRequest => true
    case Paths(m, patterns) => (m.None? || m.value == verb) && AnyPatternMatches(patterns, path)
  }

  /** The index of the first rule matching the request, if any. */
  function FirstMatch(rules: seq<Rule>, verb: HttpMethod, path: RequestPath): (r: Option<nat>)
    ensures r.Some? ==> r.value < |rules| && RuleMatches(rules[r.value], verb, path)
    ensures r.Some? ==> forall j | 0 <= j < r.value :: !RuleMatches(rules[j], verb, path)
    ensures r.None? ==> forall j | 0 <= j < |rules| :: !RuleMatches(rules[j], verb, path)
  {
    if rules == [] then None
    else if RuleMatches(rules[0], verb, path) then Some(0)
    else match FirstMatch(rules[1..], verb, path)
      case None => None
      case Some(i) => Some(i + 1)
  }

  /** The identity holds "ROLE_" + one of the roles. */
  predicate HoldsAnyRole(roles: seq<string>, authorities: seq<string>) {
    exists k | 0 <= k < |roles| :: RolePrefix + roles[k] in authorities
  }

  /** What one requirement says about a request made by `identity`
      (None: no authentication was set, the request is anonymous). */
  function Decide(req: Requirement, identity: Option<Identity>): (d: Decision)
    ensures d.Allow? || d == Deny(Anonymous) || d == Deny(MissingAuthority)
    ensures identity.None? && !req.PermitAll? ==> d == Deny(Anonymous)
    ensures d == Deny(MissingAuthority) ==> identity.Some? && req.HasAnyRole?
    ensures req.PermitAll? ==> d == Allow
    ensures req.Authenticated? ==> (d == Allow <==> identity.Some?)
    ensures req.HasAnyRole? && identity.Some? ==>
      (d == Allow <==> HoldsAnyRole(req.roles, identity.value.authorities))
  {
    match req
    case PermitAll => Allow
    case Authenticated => if identity.Some? then Allow else Deny(Anonymous)
    case HasAnyRole(roles) =>
      if identity.None? then Deny(Anonymous)
      else if HoldsAnyRole(roles, identity.value.authorities) then Allow
      else Deny(MissingAuthority)
  }

  /** The decision of the first matching rule; a request no rule matches
      is denied. */
  function Authorize(rules: seq<Rule>, verb: HttpMethod, path: RequestPath, identity: Option<Identity>): (d: Decision)
    ensures d == Deny(NoMatchingRule) <==> forall j | 0 <= j < |rules| :: !RuleMatches(rules[j], verb, path)
    ensures d != Deny(NoMatchingRule) ==>
      exists i | 0 <= i < |rules| ::
        && RuleMatches(rules[i], verb, path)
        && (forall j | 0 <= j < i :: !RuleMatches(rules[j], verb, path))
        && d == Decide(rules[i].requirement, identity)
  {
    match FirstMatch(rules, verb, path)
    case None => Deny(NoMatchingRule)
    case Some(i) => Decide(rules[i].requirement, identity)
  }

  // The patterns of the table.
  const UsersPath: PathPattern := [Literal("api"), Literal("users")]                       // /api/users
  const UsersPagePath: PathPattern := [Literal("api"), Literal("users"), Literal("page"), Variable]  // /api/users/page/{page}
  const UserPath: PathPattern := [Literal("api"), Literal("users"), Variable]              // /api/users/{id}
  const DocsPatterns: seq<PathPattern> := [
    [Literal("v3"), Literal("api-docs"), AnySuffix],                                         // /v3/api-docs/**
    [Literal("swagger-ui"), AnySuffix],                                                      // /swagger-ui/**
    [Literal("swagger-ui.html")]                                                             // /swagger-ui.html
  ]

  /** The table of filterChain, in declared order. */
  const SecurityRules: seq<Rule> := [
    Rule(Paths(None, DocsPatterns), PermitAll),
    Rule(Paths(Some(GET), [UsersPath, UsersPagePath]), PermitAll),
    Rule(Paths(Some(GET), [UserPath]), HasAnyRole(["USER", "ADMIN"])),
    Rule(Paths(Some(POST), [UsersPath]), HasAnyRole(["ADMIN"])),
    Rule(Paths(Some(PUT), [UserPath]), HasAnyRole(["ADMIN"])),
    Rule(Paths(Some(DELETE), [UserPath]), HasAnyRole(["ADMIN"])),
    Rule(AnyRequest, Authenticated)
  ]

  /** The route table applied to one request: some rule always decides,
      an anonymous request is only ever refused as anonymous, and an
      authenticated one only for a missing authority. */
  function AuthorizeRequest(verb: HttpMethod, path: RequestPath, identity: Option<Identity>): (d: Decision)
    ensures d != Deny(NoMatchingRule)
    ensures identity.None? && d.Deny? ==> d.reason == Anonymous
    ensures identity.Some? && d.Deny? ==> d.reason == MissingAuthority
  {
    assert RuleMatches(SecurityRules[|SecurityRules| - 1], verb, path);
    Authorize(SecurityRules, verb, path, identity)
  }

  predicate Holds(identity: Option<Identity>, authority: string) {
    identity.Some? && authority in identity.value.authorities
  }

  /** anyRequest() closes the table: some rule always decides. */
  lemma TableIsTotal(verb: HttpMethod, path: RequestPath, identity: Option<Identity>)
    ensures FirstMatch(SecurityRules, verb, path).Some?
    ensures AuthorizeRequest(verb, path, identity) != Deny(NoMatchingRule)
  {
    assert RuleMatches(SecurityRules[6], verb, path);
  }

  /** The API documentation is open to any verb and any caller. */
  lemma DocsArePublic(verb: HttpMethod, path: RequestPath, identity: Option<Identity>)
    requires || (|path| >= 2 && path[0] == "v3" && path[1] == "api-docs")
             || (|path| >= 1 && path[0] == "swagger-ui")
             || path == ["swagger-ui.html"]
    ensures AuthorizeRequest(verb, path, identity) == Allow
  {
    var docs := DocsPatterns;
    if |path| >= 2 && path[0] == "v3" && path[1] == "api-docs" {
      assert PatternMatches(docs[0][2..], path[2..]);
      assert PatternMatches(docs[0], path);
    } else if |path| >= 1 && path[0] == "swagger-ui" {
      assert PatternMatches(docs[1][1..], path[1..]);
      assert PatternMatches(docs[1], path);
    } else {
      assert PatternMatches(docs[2], path);
    }
    assert RuleMatches(SecurityRules[0], verb, path);
  }

  /** The literal first segment of a pattern rules out a path that starts
      differently. */
  lemma FirstSegmentMismatch(pattern: PathPattern, path: RequestPath)
    requires pattern != [] && pattern[0].Literal? && path != [] && path[0] != pattern[0].text
    ensures !PatternMatches(pattern, path)
  {
  }

  /** Requests under /api are never documentation requests. */
  lemma ApiIsNotDocs(verb: HttpMethod, path: RequestPath)
    requires path != [] && path[0] == "api"
    ensures !RuleMatches(SecurityRules[0], verb, path)
  {
    forall k | 0 <= k < |DocsPatterns| ensures !PatternMatches(DocsPatterns[k], path) {
      FirstSegmentMismatch(DocsPatterns[k], path);
    }
  }

  /** The segment a single pattern element accepts. */
  predicate SegmentFits(e: PatternElement, segment: string) {
    match e
    case Literal(t) => segment == t
    case Variable => segment != ""
    case AnySuffix => false
  }

  /** A pattern without `**` matches exactly the paths of its length whose
      segments fit its elements one by one. */
  lemma {:induction false} FixedPatternMatches(pattern: PathPattern, path: RequestPath)
    requires forall i | 0 <= i < |pattern| :: !pattern[i].AnySuffix?
    ensures PatternMatches(pattern, path) <==>
      |pattern| == |path| && forall i | 0 <= i < |path| :: SegmentFits(pattern[i], path[i])
    decreases |pattern|
  {
    if pattern != [] && path != [] {
      FixedPatternMatches(pattern[1..], path[1..]);
      if |pattern| == |path| && SegmentFits(pattern[0], path[0]) {
        assert (forall i | 0 <= i < |path| :: SegmentFits(pattern[i], path[i])) <==>
               (forall i | 0 <= i < |path[1..]| :: SegmentFits(pattern[1..][i], path[1..][i])) by {
          forall i | 0 <= i < |path[1..]| ensures pattern[1..][i] == pattern[i + 1] && path[1..][i] == path[i + 1] { }
        }
      }
    }
  }

  /** The rule at index `i` decides when it matches and none before it does. */
  lemma FirstMatchAt(rules: seq<Rule>, verb: HttpMethod, path: RequestPath, i: nat)
    requires i < |rules| && RuleMatches(rules[i], verb, path)
    requires forall j | 0 <= j < i :: !RuleMatches(rules[j], verb, path)
    ensures FirstMatch(rules, verb, path) == Some(i)
  {
  }

  /** Listing users, whole or by page, is open to every caller. */
  lemma UserListingIsPublic(path: RequestPath, page: string, identity: Option<Identity>)
    requires path == ["api", "users"] || (path == ["api", "users", "page", page] && page != "")
    ensures AuthorizeRequest(GET, path, identity) == Allow
  {
    ApiIsNotDocs(GET, path);
    FixedPatternMatches(UsersPath, path);
    FixedPatternMatches(UsersPagePath, path);
    if path == ["api", "users"] {
      assert PatternMatches([UsersPath, UsersPagePath][0], path);
    } else {
      assert PatternMatches([UsersPath, UsersPagePath][1], path);
    }
    FirstMatchAt(SecurityRules, GET, path, 1);
  }

  /** Reading one user needs ROLE_USER or ROLE_ADMIN. `{id}` is one segment
      of any text, so GET /api/users/page is decided here, not by the
      public page rule. */
  lemma UserLookupNeedsUserOrAdmin(id: string, identity: Option<Identity>)
    requires id != ""
    ensures var d := AuthorizeRequest(GET, ["api", "users", id], identity);
      && (d == Allow <==> Holds(identity, "ROLE_USER") || Holds(identity, "ROLE_ADMIN"))
      && (identity.None? ==> d == Deny(Anonymous))
      && (d != Allow && identity.Some? ==> d == Deny(MissingAuthority))
  {
    var path := ["api", "users", id];
    ApiIsNotDocs(GET, path);
    FixedPatternMatches(UsersPath, path);
    FixedPatternMatches(UsersPagePath, path);
    FixedPatternMatches(UserPath, path);
    assert !RuleMatches(SecurityRules[1], GET, path);
    assert PatternMatches([UserPath][0], path);
    FirstMatchAt(SecurityRules, GET, path, 2);
    assert RolePrefix + "USER" == "ROLE_USER";
    assert RolePrefix + "ADMIN" == "ROLE_ADMIN";
    var roles := ["USER", "ADMIN"];
    assert HoldsAnyRole(roles, if identity.Some? then identity.value.authorities else []) <==>
      Holds(identity, "ROLE_USER") || Holds(identity, "ROLE_ADMIN") by {
      assert RolePrefix + roles[0] == "ROLE_USER";
      assert RolePrefix + roles[1] == "ROLE_ADMIN";
    }
  }

  /** Creating, replacing and deleting users needs ROLE_ADMIN; ROLE_USER
      alone is refused. */
  lemma WritesNeedAdmin(verb: HttpMethod, path: RequestPath, id: string, identity: Option<Identity>)
    requires (verb == POST && path == ["api", "users"])
          || ((verb == PUT || verb == DELETE) && path == ["api", "users", id] && id != "")
    ensures var d := AuthorizeRequest(verb, path, identity);
      && (d == Allow <==> Holds(identity, "ROLE_ADMIN"))
      && (identity.None? ==> d == Deny(Anonymous))
      && (d != Allow && identity.Some? ==> d == Deny(MissingAuthority))
  {
    ApiIsNotDocs(verb, path);
    FixedPatternMatches(UsersPath, path);
    FixedPatternMatches(UserPath, path);
    var admin := ["ADMIN"];
    assert RolePrefix + admin[0] == "ROLE_ADMIN";
    if verb == POST {
      assert PatternMatches([UsersPath][0], path);
      FirstMatchAt(SecurityRules, verb, path, 3);
    } else if verb == PUT {
      assert PatternMatches([UserPath][0], path);
      FirstMatchAt(SecurityRules, verb, path, 4);
    } else {
      assert PatternMatches([UserPath][0], path);
      FirstMatchAt(SecurityRules, verb, path, 5);
    }
  }

  /** A request that none of the declared rules matches needs an
      authenticated identity, whatever its authorities. */
  lemma FallbackNeedsAuthentication(verb: HttpMethod, path: RequestPath, identity: Option<Identity>)
    requires forall j | 0 <= j < |SecurityRules| - 1 :: !RuleMatches(SecurityRules[j], verb, path)
    ensures AuthorizeRequest(verb, path, identity) == Allow <==> identity.Some?
  {
    FirstMatchAt(SecurityRules, verb, path, |SecurityRules| - 1);
  }

  /** In any table, an anonymous request is allowed only by a permitAll()
      rule. */
  lemma AnonymousOnlyThroughPermitAll(rules: seq<Rule>, verb: HttpMethod, path: RequestPath)
    requires Authorize(rules, verb, path, None) == Allow
    ensures var i := FirstMatch(rules, verb, path);
      i.Some? && rules[i.value].requirement == PermitAll
  {
  }

  /** In any table, more authorities never turn Allow into Deny, and what
      an anonymous caller may do every identity may do. */
  lemma AllowIsMonotone(rules: seq<Rule>, verb: HttpMethod, path: RequestPath, who: Option<Identity>, more: Identity)
    requires who.Some? ==> forall a | a in who.value.authorities :: a in more.authorities
    requires Authorize(rules, verb, path, who) == Allow
    ensures Authorize(rules, verb, path, Some(more)) == Allow
  {
    var i := FirstMatch(rules, verb, path);
    if rules[i.value].requirement.HasAnyRole? {
      var roles := rules[i.value].requirement.roles;
      var k :| 0 <= k < |roles| && RolePrefix + roles[k] in who.value.authorities;
      assert RolePrefix + roles[k] in more.authorities;
    }
  }

  /** The decisions expected for the users resource, on concrete callers. */
  lemma ExampleDecisions()
    ensures AuthorizeRequest(GET, ["api", "users", "5"], None) == Deny(Anonymous)
    ensures AuthorizeRequest(GET, ["api", "users", "5"], Some(Identity(Some("johnd"), None, ["ROLE_USER"]))) == Allow
    ensures AuthorizeRequest(DELETE, ["api", "users", "5"], Some(Identity(Some("johnd"), None, ["ROLE_USER"]))) == Deny(MissingAuthority)
    ensures AuthorizeRequest(DELETE, ["api", "users", "5"], Some(Identity(Some("admin"), None, ["ROLE_ADMIN", "ROLE_USER"]))) == Allow
    ensures AuthorizeRequest(GET, ["api", "users", "page"], None) == Deny(Anonymous)
  {
    UserLookupNeedsUserOrAdmin("5", None);
    UserLookupNeedsUserOrAdmin("5", Some(Identity(Some("johnd"), None, ["ROLE_USER"])));
    WritesNeedAdmin(DELETE, ["api", "users", "5"], "5", Some(Identity(Some("johnd"), None, ["ROLE_USER"])));
    WritesNeedAdmin(DELETE, ["api", "users", "5"], "5", Some(Identity(Some("admin"), None, ["ROLE_ADMIN", "ROLE_USER"])));
    UserLookupNeedsUserOrAdmin("page", None);
  }
}
