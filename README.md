# Spring Boot user service with JWT security — a Dafny model

This project models the security and user-management core of a Spring Boot
REST service. The service keeps users with roles, and it serves them under
`/api/users`. Access is guarded by JSON Web Tokens.

- **Login** (`JwtAuthenticationFilter`). The filter reads a `{username, password}` body and hands the credentials to the authentication manager. On success it signs a token valid for one hour, whose claims carry the user's authorities as a JSON array. The token goes back in the `Authorization` header and in a JSON greeting. On failure the filter writes a 401 JSON body.
- **Validation** (`JwtValidationFilter`). On every request, a header carrying the token prefix has that prefix removed with `String.replace`, so every occurrence goes. The token is then checked. A valid token yields an authentication made of the subject and the authorities read back from the claim. A token the parser rejects ends the request with 401 and `{"error", "message": "El token es invalido!"}`.
- **Route rules** (`SpringSecurityConfig.filterChain`). An ordered table, decided by the first rule that matches. The documentation routes and `GET /api/users[/page/{page}]` are public. `GET /api/users/{id}` needs ROLE_USER or ROLE_ADMIN. POST, PUT and DELETE on users need ROLE_ADMIN. Any other request needs authentication.
- **User details** (`UseDetailsService`). It loads the stored user by username into Spring's `UserDetails`, with the role names as authorities. A missing user raises `UsernameNotFoundException` with the message "Username X no existe en el sistema".
- **User entity and payloads** (`User`, `UserSaveRequest`, `UserRequest`). They carry Bean Validation constraints and `new User()` defaults. `admin` is a transient, write-only flag.
- **Mappers** (MapStruct). These are the conversions between the entity and the payloads. They include the null-ignoring partial update, which always copies the primitive `admin` and never touches id, password or roles.
- **Read endpoints** (`UserController`). The full listing; a listing four users to a page; and the lookup by id, which answers 200 with the user or 404 with `{"error": "User not found"}`.

The modules follow the source:

| module | file | models |
|---|---|---|
| `Common` | common.dfy | Null references, the authenticated identity, JSON bodies, `String.startsWith` and `String.replace` |
| `Constraints` | constraints.dfy | Bean Validation annotations |
| `Entities` | entities.dfy | The `User` entity, as a value and as the mutable object a mapper updates |
| `Requests` | requests.dfy | The request payloads |
| `Mappers` | mappers.dfy | The three MapStruct mappers |
| `AuthorityJson` | authority_json.dfy | The `authorities` claim, written and read back by Jackson |
| `AccessRules` | access_rules.dfy | The authorization table |
| `Jwt` | jwt.dfy | Token settings, claims, the parser's outcomes, and the servlet exchange as a class |
| `LoginFilter` | login_filter.dfy | `JwtAuthenticationFilter` |
| `TokenValidation` | token_validation.dfy | `JwtValidationFilter` |
| `UserStore` | user_store.dfy | The repository queries and Spring Data paging |
| `UserDetailsLoading` | user_details.dfy | `UseDetailsService` |
| `UserController` | user_controller.dfy | The read endpoints |
| `SecurityFlow` | security_flow.dfy | Login, token, validation and route rules chained together |

Both filters are modelled as imperative module-level methods (`LoginFilter.SuccessfulAuthentication`, `LoginFilter.UnsuccessfulAuthentication`, `TokenValidation.DoFilterInternal`) that take an `Exchange` object as a parameter and modify it. That object holds the response status, the content type, the headers, the written bodies, the filter-chain calls and the security context. Each method states the whole new state. `TokenValidation.DoFilterInternal` is tied to the pure `Validate`, and the properties are proved about `Validate`.

Signing and verification are function parameters: `sign` and `parse`. `parse` returns the claims, a `JwtException`, or another exception. Wherever a property needs signing and verification to agree, it states that as a precondition.

Behaviour of the code that the model keeps:

- The 401 bodies carry the raw exception message (`e.getMessage()`, `failed.getMessage()`).
- An unreadable login body is only logged. Authentication is still attempted, with null username and password. A body that is the JSON literal `null` instead fails on the first getter, and that exception leaves the filter.
- The `isAdmin` and `username` claims are written at login but never read on validation. Only the subject and `authorities` are read.
- The authorities travel as an ordered JSON array and come back in the same order, as long as the claim's conversion to bytes in the JVM's default charset keeps every name intact (see "## Left out").
- Tokens are issued for one hour (3600000 ms). The model reads the clock once, so in the model expiry is exactly issue time plus that hour (see "## Left out").
- `@Size` counts UTF-16 code units, so a character outside the Basic Multilingual Plane counts twice.
- An authority name without text is refused by `SimpleGrantedAuthority`, both when the user is loaded and when the claim is read back.
- The route rules name `/api/users...` paths, and the OpenAPI/Swagger routes are public.

## Model

| member | source | states |
|---|---|---|
| `Common.RemoveAll` | src/main/java/com/proyecto/spring_back/auth/filter/JwtValidationFilter.java:78 | `String.replace(prefix, "")` never lengthens the header, and an empty prefix leaves it unchanged |
| `Common.RemoveAllWithoutOccurrence` | src/main/java/com/proyecto/spring_back/auth/filter/JwtValidationFilter.java:78 | Removing a prefix that does not occur in the text changes nothing |
| `Common.RemoveAllLeading` | src/main/java/com/proyecto/spring_back/auth/filter/JwtValidationFilter.java:78 | A leading prefix is removed and the rest is scanned on its own |
| `Common.PrefixStripRoundTrip` | src/main/java/com/proyecto/spring_back/auth/filter/JwtValidationFilter.java:72-78 | A header `prefix + t` passes the `startsWith` test, and stripping gives back `t` when the prefix does not occur in `t` |
| `Common.HasText` | src/main/java/com/proyecto/spring_back/auth/filter/JwtValidationFilter.java:94-96 | A name passes `hasText` only if it is non-empty, and any name holding a printable ASCII character passes |
| `Constraints.NotBlank` | src/main/java/com/proyecto/spring_back/entities/User.java:50 | `@NotBlank` implies `@NotEmpty`, and a string of spaces is blank |
| `Constraints.Utf16Length` | src/main/java/com/proyecto/spring_back/entities/User.java:51 | Java's length is between one and two units per character: one each inside the Basic Multilingual Plane, two each outside it |
| `Constraints.SizeWithin` | src/main/java/com/proyecto/spring_back/entities/User.java:51 | A non-null string that passes has at most `max` characters and at least `min / 2`; one whose length, even doubled, lies in range passes |
| `Constraints.ValidUsername` | src/main/java/com/proyecto/spring_back/entities/User.java:50-52 | A valid username is non-null, has 2 to 12 characters and a character other than a space |
| `Constraints.BlankUsernameRejected` | src/main/java/com/proyecto/spring_back/entities/User.java:50-52 | Four spaces pass `@Size(4, 12)` but fail `@NotBlank`; "johnd" passes both |
| `Constraints.SupplementaryCharactersCountTwice` | src/main/java/com/proyecto/spring_back/entities/User.java:51 | Seven characters outside the Basic Multilingual Plane are too long for `@Size(4, 12)`, and two are long enough |
| `Entities.NewUser` | src/main/java/com/proyecto/spring_back/entities/User.java:36-38 | `new User()` has every reference null, `admin` false and an empty role list |
| `Entities.NewUserDefaults` | src/main/java/com/proyecto/spring_back/entities/User.java:36-59 | A fresh user violates the field constraints but has no duplicate role |
| `Entities.ValidUser` | src/main/java/com/proyecto/spring_back/entities/User.java:44-59 | A valid user has every field non-null, name, lastname, email and password non-empty, a 2 to 12 character username and a well-formed email |
| `Entities.UniqueRoles` | src/main/java/com/proyecto/spring_back/entities/User.java:79-85 | No two held roles share an id, in either order; no role or one role is always unique |
| `Entities.StoredRow` | src/main/java/com/proyecto/spring_back/entities/User.java:40-63 | The stored row carries every column except the transient `admin` |
| `Entities.JsonView` | src/main/java/com/proyecto/spring_back/entities/User.java:40-85 | The JSON output carries every property, password included, except the write-only `admin` |
| `Entities.AdminIsNeitherStoredNorWritten` | src/main/java/com/proyecto/spring_back/entities/User.java:61-63 | Two users are stored and written alike exactly when they differ at most in `admin` |
| `Entities.UserEntity.constructor` | src/main/java/com/proyecto/spring_back/entities/User.java:36-38 | The constructed object holds the `new User()` defaults |
| `Requests.ValidSaveRequest` | src/main/java/com/proyecto/spring_back/models/UserSaveRequest.java:12-28 | A valid creation payload has every field, a non-empty password, a 2 to 12 character username and a well-formed email |
| `Requests.ValidUserRequest` | src/main/java/com/proyecto/spring_back/models/UserRequest.java:12-24 | A valid update payload has every field but the password, a 2 to 12 character username and a well-formed email |
| `Requests.MissingFieldsRejected` | src/main/java/com/proyecto/spring_back/models/UserSaveRequest.java:12-30 | An empty creation payload is invalid, any single missing field makes it invalid, and `admin` never affects validity |
| `Requests.SaveRequestIsUserRequestWithPassword` | src/main/java/com/proyecto/spring_back/models/UserRequest.java:12-26 | A creation payload is valid if and only if its password is non-empty and the matching update payload is valid |
| `Mappers.ToUserRequest` | src/main/java/com/proyecto/spring_back/mapper/UserRequestMapper.java:17 | The update payload carries the user's name, lastname, username, email and admin flag |
| `Mappers.UserRequestToUser` | src/main/java/com/proyecto/spring_back/mapper/UserRequestMapper.java:20-23 | Id and password stay null and roles stay empty; the other fields are copied |
| `Mappers.SaveRequestToUser` | src/main/java/com/proyecto/spring_back/mapper/UserSaveRequestMapper.java:13-15 | Id stays null and roles stay empty; everything else, password included, is copied |
| `Mappers.ToLoginRequest` | src/main/java/com/proyecto/spring_back/mapper/LoginRequestMapper.java:13-14 | The username is copied and the password is never exposed |
| `Mappers.LoginRequestToUser` | src/main/java/com/proyecto/spring_back/mapper/LoginRequestMapper.java:17-23 | Only username and password are set; everything else keeps the `new User()` defaults |
| `Mappers.KeepIfNull` | src/main/java/com/proyecto/spring_back/mapper/UserRequestMapper.java:26 | A non-null source property replaces the target's value, and a null one leaves the target's value |
| `Mappers.ApplyUpdate` | src/main/java/com/proyecto/spring_back/mapper/UserRequestMapper.java:26-30 | Id, password and roles are untouched, `admin` is always copied, and each nullable property is overwritten exactly when the request's is non-null |
| `Mappers.UpdateUserFromRequest` | src/main/java/com/proyecto/spring_back/mapper/UserRequestMapper.java:26-30 | The entity, updated in place, ends up as `ApplyUpdate` of its old value, with id, password and roles unchanged |
| `Mappers.UpdateIdempotent` | src/main/java/com/proyecto/spring_back/mapper/UserRequestMapper.java:26-30 | Applying the same update twice is applying it once |
| `Mappers.UpdateWithOwnProjection` | src/main/java/com/proyecto/spring_back/mapper/UserRequestMapper.java:17-30 | Updating a user from its own projection changes nothing |
| `Mappers.UpdateWithCompleteRequest` | src/main/java/com/proyecto/spring_back/mapper/UserRequestMapper.java:20-30 | With every property present, the partial update equals `toUser` with the target's id, password and roles |
| `Mappers.UpdatePreservesValidity` | src/main/java/com/proyecto/spring_back/mapper/UserRequestMapper.java:26-30 | A valid update keeps a valid user valid and keeps its roles unique |
| `Mappers.UserRequestRoundTrip` | src/main/java/com/proyecto/spring_back/mapper/UserRequestMapper.java:17-23 | `toUserRequest` inverts `toUser` |
| `Mappers.UserProjectionRoundTrip` | src/main/java/com/proyecto/spring_back/mapper/UserRequestMapper.java:17-23 | `toUser` inverts `toUserRequest` except for the three ignored properties |
| `Mappers.SaveRequestGivesValidUser` | src/main/java/com/proyecto/spring_back/mapper/UserSaveRequestMapper.java:13-15 | A valid creation payload maps to a valid user without roles |
| `Mappers.UserRequestGivesValidUserWithPassword` | src/main/java/com/proyecto/spring_back/mapper/UserRequestMapper.java:20-23 | A valid update payload maps to a user that is valid exactly once a password is added |
| `Mappers.LoginRoundTrip` | src/main/java/com/proyecto/spring_back/mapper/LoginRequestMapper.java:13-23 | `toLoginRequest` inverts the login `toUser`, with the password withheld |
| `AuthorityJson.Escape` | src/main/java/com/proyecto/spring_back/auth/filter/JwtAuthenticationFilter.java:108 | Escaping never shortens an authority name and leaves no raw control character in the literal |
| `AuthorityJson.Encode` | src/main/java/com/proyecto/spring_back/auth/filter/JwtAuthenticationFilter.java:108 | The claim text is a JSON array: it opens with `[` and closes with `]` |
| `AuthorityJson.ReadArray` | src/main/java/com/proyecto/spring_back/auth/filter/JwtValidationFilter.java:94-96 | Only text that opens with `[` can be read as an authority array |
| `AuthorityJson.Decode` | src/main/java/com/proyecto/spring_back/auth/filter/JwtValidationFilter.java:94-96 | Reading succeeds exactly when the text is an authority array whose every name has text, and then gives those names in order; the text is read as characters, without the default-charset byte step |
| `AuthorityJson.ReadEscapedString` | src/main/java/com/proyecto/spring_back/auth/filter/JwtValidationFilter.java:94-96 | An escaped name followed by a closing quote is read back exactly, leaving what follows |
| `AuthorityJson.ReadEncodedElements` | src/main/java/com/proyecto/spring_back/auth/filter/JwtValidationFilter.java:94-96 | The written array elements are read back as the same names in the same order |
| `AuthorityJson.ReadArrayEncode` | src/main/java/com/proyecto/spring_back/auth/filter/JwtValidationFilter.java:94-96 | The array written at login is read back as the same names in the same order |
| `AuthorityJson.DecodeEncode` | src/main/java/com/proyecto/spring_back/auth/filter/JwtValidationFilter.java:94-96 | Reading back the claim written at login gives the same names in the same order when every name has text, and fails otherwise |
| `AuthorityJson.EncodeInjective` | src/main/java/com/proyecto/spring_back/auth/filter/JwtAuthenticationFilter.java:108 | Different authority lists never share a claim text |
| `AccessRules.PatternMatches` | src/main/java/com/proyecto/spring_back/auth/SpringSecurityConfig.java:72-80 | An empty pattern matches only the empty path; a match without `**` has one segment per element; a leading literal must equal the first segment |
| `AccessRules.FirstMatch` | src/main/java/com/proyecto/spring_back/auth/SpringSecurityConfig.java:70-82 | The chosen rule matches and no earlier rule does; no result means no rule matches |
| `AccessRules.Decide` | src/main/java/com/proyecto/spring_back/auth/SpringSecurityConfig.java:72-82 | `permitAll()` always allows; `authenticated()` allows exactly an identity; a role rule allows an identity exactly when it holds `ROLE_` plus one of the roles; anonymous requests are otherwise refused as anonymous |
| `AccessRules.Authorize` | src/main/java/com/proyecto/spring_back/auth/SpringSecurityConfig.java:70-82 | Refused for no matching rule exactly when no rule matches; otherwise decided by a matching rule with no earlier match |
| `AccessRules.AuthorizeRequest` | src/main/java/com/proyecto/spring_back/auth/SpringSecurityConfig.java:70-82 | The route table always has a deciding rule; an anonymous request is only refused as anonymous, an authenticated one only for a missing authority |
| `AccessRules.TableIsTotal` | src/main/java/com/proyecto/spring_back/auth/SpringSecurityConfig.java:82 | `anyRequest()` closes the table, so some rule always decides |
| `AccessRules.DocsArePublic` | src/main/java/com/proyecto/spring_back/auth/SpringSecurityConfig.java:72 | The OpenAPI and Swagger routes are allowed for everyone, whatever the method |
| `AccessRules.ApiIsNotDocs` | src/main/java/com/proyecto/spring_back/auth/SpringSecurityConfig.java:72 | No `/api` path matches the documentation rule |
| `AccessRules.FirstSegmentMismatch` | src/main/java/com/proyecto/spring_back/auth/SpringSecurityConfig.java:72-80 | A pattern whose first literal differs from the path's first segment does not match |
| `AccessRules.FixedPatternMatches` | src/main/java/com/proyecto/spring_back/auth/SpringSecurityConfig.java:74-80 | A pattern without `**` matches exactly the paths of the same length whose segments fit one by one |
| `AccessRules.FirstMatchAt` | src/main/java/com/proyecto/spring_back/auth/SpringSecurityConfig.java:70-82 | A rule that matches, with no earlier rule matching, is the one chosen |
| `AccessRules.UserListingIsPublic` | src/main/java/com/proyecto/spring_back/auth/SpringSecurityConfig.java:74 | `GET /api/users` and `GET /api/users/page/{page}` are allowed for anyone, anonymous included |
| `AccessRules.UserLookupNeedsUserOrAdmin` | src/main/java/com/proyecto/spring_back/auth/SpringSecurityConfig.java:76 | `GET /api/users/{id}` is allowed exactly for ROLE_USER or ROLE_ADMIN holders; otherwise it is refused as anonymous or as missing an authority |
| `AccessRules.WritesNeedAdmin` | src/main/java/com/proyecto/spring_back/auth/SpringSecurityConfig.java:78-80 | POST, PUT and DELETE on users are allowed exactly for ROLE_ADMIN holders |
| `AccessRules.FallbackNeedsAuthentication` | src/main/java/com/proyecto/spring_back/auth/SpringSecurityConfig.java:82 | A request no declared rule matches is allowed exactly when authenticated |
| `AccessRules.AnonymousOnlyThroughPermitAll` | src/main/java/com/proyecto/spring_back/auth/SpringSecurityConfig.java:70-82 | In any table, an allowed anonymous request was decided by a `permitAll()` rule |
| `AccessRules.AllowIsMonotone` | src/main/java/com/proyecto/spring_back/auth/SpringSecurityConfig.java:70-82 | Granting more authorities never turns an allowed request into a denied one |
| `AccessRules.ExampleDecisions` | src/main/java/com/proyecto/spring_back/auth/SpringSecurityConfig.java:74-80 | Concrete decisions for anonymous, ROLE_USER and ROLE_ADMIN callers |
| `Jwt.Exchange.constructor` | src/main/java/com/proyecto/spring_back/auth/filter/JwtValidationFilter.java:64-65 | A fresh exchange has status 200, no content type, headers or bodies, no chain call and an empty security context |
| `LoginFilter.AttemptAuthentication` | src/main/java/com/proyecto/spring_back/auth/filter/JwtAuthenticationFilter.java:54-79 | The body's username and password are passed on; an unreadable body still leads to an attempt with null credentials; a `null` body leaves with a NullPointerException and no attempt |
| `LoginFilter.IsAdmin` | src/main/java/com/proyecto/spring_back/auth/filter/JwtAuthenticationFilter.java:103 | `isAdmin` holds exactly when ROLE_ADMIN is among the granted authorities |
| `LoginFilter.IssueClaims` | src/main/java/com/proyecto/spring_back/auth/filter/JwtAuthenticationFilter.java:106-120 | Subject and username are the principal, `isAdmin` reflects ROLE_ADMIN, the authorities claim reads back as the granted list when every name has text, and expiry is issue time plus one hour |
| `LoginFilter.SuccessBody` | src/main/java/com/proyecto/spring_back/auth/filter/JwtAuthenticationFilter.java:126-129 | The success body has exactly `token`, `username` and the greeting `message` |
| `LoginFilter.FailureBody` | src/main/java/com/proyecto/spring_back/auth/filter/JwtAuthenticationFilter.java:152-157 | The failure body has exactly timestamp, status 401, "Unauthorized", the exception message and the servlet path |
| `LoginFilter.SuccessfulAuthentication` | src/main/java/com/proyecto/spring_back/auth/filter/JwtAuthenticationFilter.java:94-135 | Adds one header `prefix + token`, writes the success body, and sets the content type and status 200; the chain and security context are untouched |
| `LoginFilter.UnsuccessfulAuthentication` | src/main/java/com/proyecto/spring_back/auth/filter/JwtAuthenticationFilter.java:148-163 | Writes the failure body and sets the content type and status 401; headers, chain and context are untouched |
| `LoginFilter.HeaderCarriesBodyToken` | src/main/java/com/proyecto/spring_back/auth/filter/JwtAuthenticationFilter.java:123-127 | Stripping the prefix from the header gives the token in the body |
| `TokenValidation.InvalidTokenBody` | src/main/java/com/proyecto/spring_back/auth/filter/JwtValidationFilter.java:112-114 | The 401 body has exactly `error` (the exception message, or null) and `message` "El token es invalido!" |
| `TokenValidation.ClaimsOutcome` | src/main/java/com/proyecto/spring_back/auth/filter/JwtValidationFilter.java:86-101 | Authenticates exactly when the authorities claim is present and readable, with the subject, no credentials and the decoded authorities; a missing claim escapes |
| `TokenValidation.Validate` | src/main/java/com/proyecto/spring_back/auth/filter/JwtValidationFilter.java:68-120 | Anonymous exactly when the header is absent or lacks the prefix; rejected exactly when the parser throws a `JwtException` on the stripped token; a parsed token gives the outcome of its claims; any other parser exception escapes |
| `TokenValidation.DoFilterInternal` | src/main/java/com/proyecto/spring_back/auth/filter/JwtValidationFilter.java:64-122 | The exchange changes as `Validate` says: either the chain runs once (with the context set when a token was valid) or one 401 body is written, never both; an escaping exception leaves it as it was |
| `TokenValidation.OnlySubjectAndAuthoritiesRead` | src/main/java/com/proyecto/spring_back/auth/filter/JwtValidationFilter.java:86-90 | The `username`, `isAdmin` and date claims do not affect the resulting authentication |
| `TokenValidation.IssuedTokenAuthenticates` | src/main/java/com/proyecto/spring_back/auth/filter/JwtValidationFilter.java:72-105 | A token issued at login and sent back with the prefix, whose subject and authorities the parser gives back, authenticates the same username with no credentials and the same authorities in order; a name without text escapes instead |
| `TokenValidation.RejectedTokenBody` | src/main/java/com/proyecto/spring_back/auth/filter/JwtValidationFilter.java:110-119 | A token the parser rejects yields the 401 body carrying the parser's message |
| `TokenValidation.BarePrefixEscapes` | src/main/java/com/proyecto/spring_back/auth/filter/JwtValidationFilter.java:78-83 | A header that is just the prefix hands the parser an empty token, and that exception escapes the filter |
| `TokenValidation.RemoveAllKeepsHead` | src/main/java/com/proyecto/spring_back/auth/filter/JwtValidationFilter.java:78 | Text with no occurrence of the prefix starting in its head keeps that head |
| `TokenValidation.EveryOccurrenceRemoved` | src/main/java/com/proyecto/spring_back/auth/filter/JwtValidationFilter.java:78 | A header `prefix + t + prefix + u` reaches the parser as `t + u`: the inner occurrence is removed too |
| `UserStore.PageRequestOf` | src/main/java/com/proyecto/spring_back/controllers/UserController.java:33 | A negative page index is refused with "Page index must not be less than zero", a size below one with its own message; otherwise the request is built |
| `UserStore.FindFirst` | src/main/java/com/proyecto/spring_back/repositories/UserRepository.java:17 | The first stored user satisfying the predicate; none exactly when no user does |
| `UserStore.FindById` | src/main/java/com/proyecto/spring_back/services/UserServiceImpl.java:39-43 | A stored user with that id, or none exactly when no user has it |
| `UserStore.FindByUsername` | src/main/java/com/proyecto/spring_back/repositories/UserRepository.java:17 | A stored user with that username, or none exactly when no user has it |
| `UserStore.PageCount` | src/main/java/com/proyecto/spring_back/repositories/UserRepository.java:16 | The fewest pages that hold all the elements |
| `UserStore.PageContent` | src/main/java/com/proyecto/spring_back/repositories/UserRepository.java:16 | At most `size` users, those at offsets `page * size` onwards; empty past the end |
| `UserStore.FindPage` | src/main/java/com/proyecto/spring_back/repositories/UserRepository.java:16 | The page records its number, size and total; the total page count is minimal; the content is non-empty exactly on pages below the count |
| `UserStore.FirstPagesArePrefix` | src/main/java/com/proyecto/spring_back/repositories/UserRepository.java:16 | The first k pages together are the first `k * size` users |
| `UserStore.PagesCoverStore` | src/main/java/com/proyecto/spring_back/repositories/UserRepository.java:16 | All pages in order give back every stored user, in order, once |
| `UserStore.UserOnItsPage` | src/main/java/com/proyecto/spring_back/repositories/UserRepository.java:16 | The user at offset i is on page `i / size`, at position `i % size` |
| `UserDetailsLoading.Authorities` | src/main/java/com/proyecto/spring_back/services/UseDetailsService.java:56-59 | The authorities are exactly the role names, at most one per role |
| `UserDetailsLoading.LoadUserByUsername` | src/main/java/com/proyecto/spring_back/services/UseDetailsService.java:41-74 | Not found, with "Username X no existe en el sistema", exactly when no user has the username; loaded exactly when the found user's role names have text, the username is non-empty and the password non-null; otherwise the authority or constructor message; when loaded, the requested username, the stored password and role names, and every account flag true |
| `UserDetailsLoading.StoredUserLoads` | src/main/java/com/proyecto/spring_back/services/UseDetailsService.java:44-73 | A stored user with a non-empty username, a password and role names with text is always loaded |
| `UserDetailsLoading.DistinctNamesDistinctAuthorities` | src/main/java/com/proyecto/spring_back/services/UseDetailsService.java:56-59 | Distinct role names give as many authorities as roles |
| `UserDetailsLoading.AdminClaimMatchesRoles` | src/main/java/com/proyecto/spring_back/auth/filter/JwtAuthenticationFilter.java:102-103 | However the loaded authorities are listed, `isAdmin` holds exactly when a role is named ROLE_ADMIN |
| `UserController.GetAllUsers` | src/main/java/com/proyecto/spring_back/controllers/UserController.java:26-29 | Every stored user, in store order, as its JSON view |
| `UserController.GetAllUsersPage` | src/main/java/com/proyecto/spring_back/controllers/UserController.java:31-34 | A negative page fails; otherwise the page of four users at that index, with the store's total |
| `UserController.GetUserById` | src/main/java/com/proyecto/spring_back/controllers/UserController.java:36-44 | 200 with a stored user of that id exactly when one exists, otherwise 404 with `{"error": "User not found"}` |
| `UserController.ListingIsAllPages` | src/main/java/com/proyecto/spring_back/controllers/UserController.java:26-34 | Pages 0 to the last, read in order, give the full listing, and each is non-empty |
| `UserController.PagingExamples` | src/main/java/com/proyecto/spring_back/controllers/UserController.java:31-34 | Eight users give two full pages and an empty third; seven leave three on page 1 |
| `UserController.LookupOfStoredUser` | src/main/java/com/proyecto/spring_back/controllers/UserController.java:36-44 | Looking up a stored user's id answers 200 with a user of that id |
| `SecurityFlow.LoginThenRequest` | src/main/java/com/proyecto/spring_back/auth/SpringSecurityConfig.java:80-86 | A loaded user who logs in and sends the token back is authenticated with its authorities, and may delete users exactly when its stored roles include ROLE_ADMIN |

## Left out

- Token signing and verification (HMAC with the secret key, the compact format, the expiry check) are the `sign` and `parse` parameters. Properties that need them to agree say so in their preconditions.
- `TokenJwtConfig` is not part of this model. Its header name, prefix and content type are the `TokenConfig` parameter; its secret key lives inside `sign` and `parse`.
- The clock is a parameter. The source reads it twice at login (`new Date()` and `System.currentTimeMillis()`), and the token stores both dates in whole seconds. The model uses one `now` in milliseconds, so in the model expiry is exactly issue time plus one hour. The validation filter never reads the dates, so the lemmas about it only require the parser to give back the subject and the authorities.
- Jackson's reader is modelled for the arrays Jackson's writer produces. Whitespace between tokens, extra properties, `\u` surrogate pairs and trailing content are read as errors in the model, while the library may accept some of them.
- `UserDetailsLoading.Authorities`: Spring's `User` keeps authorities in a set sorted by name. The model keeps the set but not its order; the login filter takes the authorities in whatever order it is given them.
- The password encoder (BCrypt) and the `AuthenticationManager` are not modelled. Their result is the `authenticate` parameter of `AttemptAuthentication`.
- Denied requests are a `Decision`. The 401 or 403 response Spring writes for them is not modelled.
- The `SecurityContextHolder` thread-local is the `authentication` field of the `Exchange` object.
- CORS, CSRF and the stateless session policy are left out. They do not change the route decisions.
- JPA persistence, transactions and lazy loading are left out. The store is a sequence of users in store order; database order is not modelled.
- `@Email`'s address grammar belongs to the validator library. It is the `isEmail` parameter.
- The `POST`, `PUT` and `DELETE` user handlers and the service methods they call are not modelled. Their mapping and validation are modelled in `Mappers` and `Requests`.
- `UserStore.FindByUsername`: the store may hold two users with the same username. For them, Spring Data's `Optional<User> findByUsername` throws `IncorrectResultSizeDataAccessException`, which propagates out of `loadUserByUsername`; the model returns the first match instead.
- `Mappers.ApplyUpdate`, `Mappers.ToUserRequest`, `Mappers.UserRequestToUser`, `Mappers.SaveRequestToUser`, `Mappers.ToLoginRequest`, `Mappers.LoginRequestToUser`: a null source object is not modelled. For a null source, MapStruct's generated update method returns early and the generated conversions return null.
- `AuthorityJson.Decode`: the claim is read as characters. The source first turns it into bytes with `String.getBytes()` in the JVM's default charset, and Jackson then detects the encoding from those bytes. The round trip `DecodeEncode` therefore holds for the program only when every authority name is ASCII or the default charset is UTF-8, which it always is from Java 18 on. With a US-ASCII default, each non-ASCII character becomes `?`. With an ISO-8859-1 or cp1252 default, such a character gives bytes that are not valid UTF-8, and Jackson's exception escapes the filter. Charsets are not modelled.
- Splitting the raw request path into segments, and URL decoding, are not modelled. Paths are segment sequences.
- The `{page}` and `{id}` path variables are taken as already converted to numbers. The 400 Spring answers for a non-numeric value is not modelled, nor the 500 for a negative page index (the model returns `Failure`).
