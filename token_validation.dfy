/** JwtValidationFilter: on every request, a header carrying the token
    prefix is stripped, the token checked by the parser, and the subject and
    authorities of a valid token placed in the security context; an invalid
    token ends the request with a 401 JSON body. */
module TokenValidation {
  import opened Common
  import opened Jwt
  import AuthorityJson
  import LoginFilter

  /** Failures the filter does not catch: they propagate out of it. */
  datatype Fault =
    | ParserFault(message: Option<string>)  // a non-JwtException from the parser
    | MissingAuthoritiesClaim               // toString() on a null claim
    | UnreadableAuthorities                 // Jackson could not read the claim or build an authority

  /** What the filter does with one request. */
  datatype Outcome =
    | Anonymous                      // passed on untouched
    | Authenticated(identity: Identity)  // context set, then passed on
    | Rejected(body: JsonObject)     // 401 written, not passed on
    | Escaped(fault: Fault)          // exception out of the filter

  const InvalidTokenMessage: string := "El token es invalido!"

  /** The body written for a token the parser rejected. */
  function InvalidTokenBody(message: Option<string>): (body: JsonObject)
    ensures body.Keys == {"error", "message"}
    ensures body["error"] == StringOrNull(message) && body["message"] == JString(InvalidTokenMessage)
  {
    map["error" := StringOrNull(message), "message" := JString(InvalidTokenMessage)]
  }

  /** The authentication built from verified claims: the subject, no
      credentials, and the authorities read from the `authorities` claim. */
  function ClaimsOutcome(claims: Claims): (o: Outcome)
    ensures o.Authenticated? || o.Escaped?
    ensures o.Authenticated? <==>
      claims.authorities.Some? && AuthorityJson.Decode(claims.authorities.value).Some?
    ensures o.Authenticated? ==>
      o.identity == Identity(claims.subject, None, AuthorityJson.Decode(claims.authorities.value).value)
    ensures claims.authorities.None? ==> o == Escaped(MissingAuthoritiesClaim)
  {
    match claims.authorities
    case None => Escaped(MissingAuthoritiesClaim)
    case Some(text) =>
      match AuthorityJson.Decode(text)
      case None => Escaped(UnreadableAuthorities)
      case Some(roles) => Authenticated(Identity(claims.subject, None, roles))
  }

  /** The outcome of doFilterInternal for a header value (None: no header). */
  function Validate(header: Option<string>, prefix: string, parse: string -> ParseResult): (o: Outcome)
    ensures o.Anonymous? <==> header.None? || !StartsWith(header.value, prefix)
    ensures o.Rejected? <==>
      header.Some? && StartsWith(header.value, prefix) && parse(RemoveAll(header.value, prefix)).JwtFailure?
    ensures o.Rejected? ==> o.body == InvalidTokenBody(parse(RemoveAll(header.value, prefix)).message)
    ensures o.Authenticated? ==>
      header.Some? && parse(RemoveAll(header.value, prefix)).Parsed? &&
      o == ClaimsOutcome(parse(RemoveAll(header.value, prefix)).claims)
    ensures header.Some? && StartsWith(header.value, prefix) && parse(RemoveAll(header.value, prefix)).Parsed? ==>
      o == ClaimsOutcome(parse(RemoveAll(header.value, prefix)).claims)
    ensures header.Some? && StartsWith(header.value, prefix) && parse(RemoveAll(header.value, prefix)).OtherFailure? ==>
      o == Escaped(ParserFault(parse(RemoveAll(header.value, prefix)).message))
  {
    if header.None? || !StartsWith(header.value, prefix) then Anonymous
    else
      match parse(RemoveAll(header.value, prefix))
      case JwtFailure(message) => Rejected(InvalidTokenBody(message))
      case OtherFailure(message) => Escaped(ParserFault(message))
      case Parsed(claims) => ClaimsOutcome(claims)
  }

  /** doFilterInternal. The exchange changes as Validate says; a fault is
      an exception that leaves the filter with the exchange as it was. */
  method DoFilterInternal(ex: Exchange, config: TokenConfig, header: Option<string>, parse: string -> ParseResult)
    returns (fault: Option<Fault>)
    modifies ex
    ensures var o := Validate(header, config.prefix, parse);
      && (o.Escaped? <==> fault.Some?)
      && (o.Escaped? ==> fault.value == o.fault)
      && ex.chainCalls == old(ex.chainCalls) + (if o.Anonymous? || o.Authenticated? then 1 else 0)
      && ex.authentication == (if o.Authenticated? then Some(o.identity) else old(ex.authentication))
      && ex.written == old(ex.written) + (if o.Rejected? then [o.body] else [])
      && ex.status == (if o.Rejected? then 401 else old(ex.status))
      && ex.contentType == (if o.Rejected? then Some(config.contentType) else old(ex.contentType))
      && ex.headers == old(ex.headers)
    ensures fault.None? ==>
      || (ex.chainCalls == old(ex.chainCalls) + 1 && ex.written == old(ex.written))
      || (ex.chainCalls == old(ex.chainCalls) && |ex.written| == |old(ex.written)| + 1 && ex.status == 401)
    ensures fault.Some? ==> ex.chainCalls == old(ex.chainCalls) && ex.written == old(ex.written)
  {
    fault := None;
    if header.None? || !StartsWith(header.value, config.prefix) {
      ex.chainCalls := ex.chainCalls + 1;
      return;
    }
    var token := RemoveAll(header.value, config.prefix);
    match parse(token)
    case JwtFailure(message) =>
      var body: JsonObject := map[];
      body := body["error" := StringOrNull(message)];
      body := body["message" := JString(InvalidTokenMessage)];
      ex.written := ex.written + [body];
      ex.status := 401;
      ex.contentType := Some(config.contentType);
    case OtherFailure(message) =>
      fault := Some(ParserFault(message));
    case Parsed(claims) =>
      var outcome := ClaimsOutcome(claims);
      if outcome.Authenticated? {
        ex.authentication := Some(outcome.identity);
        ex.chainCalls := ex.chainCalls + 1;
      } else {
        fault := Some(outcome.fault);
      }
  }

  /** The claims the login filter alone writes (`username`, `isAdmin`)
      and the token's dates play no part once the parser accepted it. */
  lemma OnlySubjectAndAuthoritiesRead(claims: Claims, username: Option<string>, isAdmin: Option<bool>,
                                      issuedAt: Option<int>, expiration: Option<int>)
    ensures ClaimsOutcome(claims.(username := username, isAdmin := isAdmin, issuedAt := issuedAt, expiration := expiration))
         == ClaimsOutcome(claims)
  {
  }

  /** The parser accepts `jwt` and gives back the two claims the filter
      reads as `claims` holds them; the dates may come back truncated to
      seconds, and nothing else is required of them. */
  predicate ReadsBack(parse: string -> ParseResult, jwt: string, claims: Claims) {
    && parse(jwt).Parsed?
    && parse(jwt).claims.subject == claims.subject
    && parse(jwt).claims.authorities == claims.authorities
  }

  /** The end-to-end property: a token issued at login, sent back with the
      prefix, and accepted by the parser authenticates the same username with
      the same authorities in the same order and no credentials; an
      authority name without text makes the claim unreadable instead. */
  lemma IssuedTokenAuthenticates(prefix: string, username: string, roles: seq<string>, now: int,
                                 sign: Claims -> string, parse: string -> ParseResult)
    requires prefix != []
    requires !Occurs(prefix, sign(LoginFilter.IssueClaims(username, roles, now)))
    requires ReadsBack(parse, sign(LoginFilter.IssueClaims(username, roles, now)), LoginFilter.IssueClaims(username, roles, now))
    ensures AllHaveText(roles) ==>
      Validate(Some(prefix + sign(LoginFilter.IssueClaims(username, roles, now))), prefix, parse)
        == Authenticated(Identity(Some(username), None, roles))
    ensures !AllHaveText(roles) ==>
      Validate(Some(prefix + sign(LoginFilter.IssueClaims(username, roles, now))), prefix, parse)
        == Escaped(UnreadableAuthorities)
  {
    var jwt := sign(LoginFilter.IssueClaims(username, roles, now));
    PrefixStripRoundTrip(prefix, jwt);
  }

  /** A token that was signed but is no longer accepted (expired, say)
      yields the 401 body carrying the parser's message. */
  lemma RejectedTokenBody(prefix: string, jwt: string, message: Option<string>, parse: string -> ParseResult)
    requires prefix != [] && !Occurs(prefix, jwt)
    requires parse(jwt) == JwtFailure(message)
    ensures Validate(Some(prefix + jwt), prefix, parse) == Rejected(InvalidTokenBody(message))
  {
    PrefixStripRoundTrip(prefix, jwt);
  }

  /** A header that is exactly the prefix hands the parser an empty token,
      which it refuses with an exception the filter does not catch. */
  lemma BarePrefixEscapes(prefix: string, parse: string -> ParseResult, message: Option<string>)
    requires prefix != []
    requires parse([]) == OtherFailure(message)
    ensures Validate(Some(prefix), prefix, parse) == Escaped(ParserFault(message))
  {
    PrefixStripRoundTrip(prefix, []);
    assert prefix + [] == prefix;
  }

  /** No occurrence of `p` in `s` starts before index `n`. */
  predicate NoneStartsBefore(p: string, s: string, n: nat) {
    forall i | 0 <= i < n :: !OccursAt(p, s, i)
  }

  /** Dropping the first character keeps the occurrence-free head, one
      character shorter. */
  lemma NoneStartsBeforeShift(p: string, s: string, n: nat)
    requires s != [] && n >= 1 && NoneStartsBefore(p, s, n)
    ensures NoneStartsBefore(p, s[1..], n - 1)
  {
    forall i | 0 <= i < n - 1
      ensures !OccursAt(p, s[1..], i)
    {
      assert !OccursAt(p, s, i + 1);
      OccursAtShift(p, s, i);
    }
  }

  /** Removing the prefix from text that has no occurrence of it starting
      within its first part leaves that part as it is. */
  lemma {:induction false} RemoveAllKeepsHead(a: string, b: string, p: string)
    requires p != []
    requires NoneStartsBefore(p, a + b, |a|)
    ensures RemoveAll(a + b, p) == a + RemoveAll(b, p)
    decreases |a|
  {
    if a == [] {
      assert a + b == b;
    } else {
      var s := a + b;
      assert s[1..] == a[1..] + b;
      NoneStartsBeforeShift(p, s, |a|);
      RemoveAllKeepsHead(a[1..], b, p);
      KeepFirst(s, a, b, p);
    }
  }

  /** The step of RemoveAllKeepsHead: the first character of the head,
      where no occurrence starts, is kept in front of the rest. */
  lemma KeepFirst(s: string, a: string, b: string, p: string)
    requires p != [] && a != [] && s == a + b && !OccursAt(p, s, 0)
    requires RemoveAll(a[1..] + b, p) == a[1..] + RemoveAll(b, p)
    ensures RemoveAll(s, p) == a + RemoveAll(b, p)
  {
    if |s| < |p| {
      assert RemoveAll(s, p) == s;
      assert RemoveAll(b, p) == b;
    } else {
      RemoveAllSkip(s, p);
      assert s[1..] == a[1..] + b;
      ConsAfterHead(s, a, b, RemoveAll(s[1..], p), RemoveAll(b, p));
    }
  }

  /** Sequence bookkeeping for KeepFirst. */
  lemma ConsAfterHead(s: string, a: string, b: string, x: string, r: string)
    requires a != [] && s == a + b && x == a[1..] + r
    ensures [s[0]] + x == a + r
  {
    assert [a[0]] + a[1..] == a;
  }

  /** String.replace removes every occurrence, not just the leading one: a
      header `prefix + t + prefix + u` hands the parser `t + u`. */
  lemma EveryOccurrenceRemoved(prefix: string, t: string, u: string)
    requires prefix != []
    requires NoneStartsBefore(prefix, t + (prefix + u), |t|)
    requires !Occurs(prefix, u)
    ensures StartsWith(prefix + t + prefix + u, prefix)
    ensures RemoveAll(prefix + t + prefix + u, prefix) == t + u
  {
    var tail := prefix + u;
    var body := t + tail;
    assert prefix + t + prefix + u == prefix + body;
    RemoveAllLeading(prefix, body);
    RemoveAllKeepsHead(t, tail, prefix);
    PrefixStripRoundTrip(prefix, u);
  }
}
