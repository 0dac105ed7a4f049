# Realm-role authorities and access rules of the JWT resource server

This project models the one piece of logic in the resource server's security
configuration (`SecurityConfig`). The rest of the configuration only wires
framework beans.

- **The realm-role authorities converter.** It takes the claims of a verified
  token, reads `realm_access.roles`, and grants one authority
  `"ROLE_" + role.toUpperCase()` per role. Roles keep their order and
  duplicates are kept. If `realm_access` is missing, the converter uses an
  empty map. If `roles` is missing, it uses an empty list.
- **The authentication converter.** It hands the token's claims to the
  realm-role converter and attaches the result to the token's authentication.
- **The authorization rules.** `/admin/**` needs role ADMIN (the authority
  `ROLE_ADMIN`). Every other request only needs to be authenticated.

Files:

- `Json.dfy`: claim values as JSON values. An object decodes to a `Map`, an
  array to a `List`, and `null` to a null reference.
- `Ascii.dfy`: upper-casing, which stands in for `String.toUpperCase()`.
- `SecurityConfig.dfy`: the converter (`Convert`, built from
  `GetOrDefault`, the casts `AsMap` and `AsCollection`, and the stream
  `MapRoles`), the hand-off `Authenticate`, and the rule table `Rules` with
  its first-match evaluation `Decide` and the resulting `Allowed`.

The converter returns `Result<seq<string>>`. The Java code casts the values of
`realm_access` and `roles`, and its lambda dereferences each role as a
`String`. So a malformed claim raises an exception; it does not become an empty
list of authorities:

- a present `realm_access` that is not an object fails with `ClassCast`, or
  with `NullPointer` when it is null;
- a present `roles` that is not an array fails in the same two ways;
- a role element that is not a string fails at the first such element.

`Map.getOrDefault` returns the default only for an absent key. A key that is
present with a null value yields that null, which then fails on first use.
A malformed claim is never turned into an empty list of authorities.
`ConvertEmptyOnlyWithoutRoles` proves that an empty result only comes from an
absent `realm_access`, an absent `roles` or an empty `roles` array.

## Model

| member | source | states |
|---|---|---|
| Ascii.UpperChar | src/main/java/com/example/jwtDecoder/SecurityConfig.java:32 | the upper-cased character is never a lower-case letter; a lower-case letter moves to its capital; anything else is unchanged |
| Ascii.Upper | src/main/java/com/example/jwtDecoder/SecurityConfig.java:32 | upper-casing keeps the length, maps each character by `UpperChar`, and leaves no lower-case letter |
| Ascii.UpperIdempotent | src/main/java/com/example/jwtDecoder/SecurityConfig.java:32 | upper-casing twice equals upper-casing once |
| Ascii.UpperFixedIffNoLower | src/main/java/com/example/jwtDecoder/SecurityConfig.java:32 | a string is unchanged by upper-casing exactly when it has no lower-case letter |
| SecurityConfig.Authority | src/main/java/com/example/jwtDecoder/SecurityConfig.java:32 | the authority for a role name is well formed (prefix `ROLE_`, no lower-case letter after it), is `ROLE_` longer than the name, and its suffix is the upper-cased name |
| SecurityConfig.MapRoles | src/main/java/com/example/jwtDecoder/SecurityConfig.java:30-35 | the stream succeeds exactly when every element is a string; it then yields one authority per role, same length and same order; otherwise it fails at the first non-string element, as a null-pointer exception exactly when that element is null |
| SecurityConfig.Convert | src/main/java/com/example/jwtDecoder/SecurityConfig.java:26-36 | every granted authority is well formed (prefix `ROLE_`, no lower-case letter after it); a failure at `realm_access` means that claim is present and not an object; a failure at `roles` means `realm_access` is an object whose `roles` is present and not an array; a failure at a role element means a roles array is declared and that element is its first non-string |
| SecurityConfig.ConvertWithoutRealmAccess | src/main/java/com/example/jwtDecoder/SecurityConfig.java:27-28 | claims without `realm_access` grant no authorities and do not fail |
| SecurityConfig.ConvertWithoutRoles | src/main/java/com/example/jwtDecoder/SecurityConfig.java:28-35 | a `realm_access` object without `roles`, or with an empty `roles` array, grants no authorities and does not fail |
| SecurityConfig.ConvertRealmAccessNotObject | src/main/java/com/example/jwtDecoder/SecurityConfig.java:27-28 | a present `realm_access` that is not an object, null included, makes the converter fail at `realm_access`, with a null-pointer exception exactly when the value is null and a class-cast exception otherwise |
| SecurityConfig.ConvertRolesNotArray | src/main/java/com/example/jwtDecoder/SecurityConfig.java:28-30 | a present `roles` that is not an array, null included, makes the converter fail at `roles`, with a null-pointer exception exactly when the value is null and a class-cast exception otherwise |
| SecurityConfig.ConvertDeclaredRoles | src/main/java/com/example/jwtDecoder/SecurityConfig.java:30-35 | for a declared roles array: the converter succeeds exactly when all roles are strings; on success element i is `ROLE_` + upper-cased role i, with the same length (order and duplicates kept); on failure it fails at the first non-string role |
| SecurityConfig.ConvertEmptyOnlyWithoutRoles | src/main/java/com/example/jwtDecoder/SecurityConfig.java:26-36 | an empty successful result only comes from an absent `realm_access`, an absent `roles`, or an empty `roles` array |
| SecurityConfig.ConvertGrantsRoleAuthorities | src/main/java/com/example/jwtDecoder/SecurityConfig.java:31-32 | every granted authority starts with `ROLE_` and has no lower-case letter after it; upper-casing that suffix leaves it unchanged |
| SecurityConfig.MapRolesIgnoresCase | src/main/java/com/example/jwtDecoder/SecurityConfig.java:32 | two string-role lists that agree once upper-cased give the same authorities |
| SecurityConfig.ConvertIgnoresCase | src/main/java/com/example/jwtDecoder/SecurityConfig.java:27-35 | two tokens whose declared role names agree once upper-cased (such as `admin` and `Admin`) both succeed with identical authorities |
| SecurityConfig.ConvertKeepsOrder | src/main/java/com/example/jwtDecoder/SecurityConfig.java:30-35 | roles `["admin", "user"]` give `["ROLE_ADMIN", "ROLE_USER"]` |
| SecurityConfig.ConvertUpperCasesRole | src/main/java/com/example/jwtDecoder/SecurityConfig.java:32 | role `["Admin"]` gives `["ROLE_ADMIN"]` |
| SecurityConfig.ConvertKeepsDuplicates | src/main/java/com/example/jwtDecoder/SecurityConfig.java:30-35 | roles `["admin", "admin"]` give `["ROLE_ADMIN", "ROLE_ADMIN"]`, with no deduplication |
| SecurityConfig.Authenticate | src/main/java/com/example/jwtDecoder/SecurityConfig.java:44-47 | authentication succeeds exactly when the converter does on the token's claims; the authentication then holds that token and exactly the converter's authorities; otherwise it fails with the converter's exception |
| SecurityConfig.IsAdminPath | src/main/java/com/example/jwtDecoder/SecurityConfig.java:69 | a path is an admin path exactly when it starts with `/admin` and either ends there or continues with `/`, so whole path segments are matched (`/administrator` is not an admin path) |
| SecurityConfig.RulesFirstMatch | src/main/java/com/example/jwtDecoder/SecurityConfig.java:67-72 | in the configured rule table every request has a first matching rule: it demands role ADMIN for an admin path and only authentication for any other path |
| SecurityConfig.Decide | src/main/java/com/example/jwtDecoder/SecurityConfig.java:67-72 | a request is allowed exactly when some rule matches it, no earlier rule matches it, and it meets that rule's requirement |
| SecurityConfig.Allowed | src/main/java/com/example/jwtDecoder/SecurityConfig.java:69-71 | an `/admin/**` request is allowed exactly when it is authenticated and holds `ROLE_ADMIN`; any other request exactly when it is authenticated, whatever its authorities |
| SecurityConfig.AuthorityIsAdmin | src/main/java/com/example/jwtDecoder/SecurityConfig.java:31-32 | the authority for a role name is `ROLE_ADMIN` exactly when the name upper-cases to `ADMIN` |
| SecurityConfig.AdminAccessFollowsRoles | src/main/java/com/example/jwtDecoder/SecurityConfig.java:44-71 | a token declaring string roles authenticates; it reaches an `/admin/**` path exactly when one of its roles upper-cases to `ADMIN`, and it reaches every other path |
| SecurityConfig.NoRolesNoAdminAccess | src/main/java/com/example/jwtDecoder/SecurityConfig.java:27-71 | a token without `realm_access` authenticates with no authorities; it is refused on `/admin/**` paths and allowed on all others |

## Left out

- Token decoding and verification: signature, expiry, issuer and audience.
  Spring's resource-server support does this (lines 58-63 only configure it),
  and it is not part of this model. `Jwt` is reduced to its claims.
- The principal name that `JwtAuthenticationConverter` takes from the token. It
  is framework code and is not part of this model. `Authentication` holds only
  the token and its authorities.
- Bean wiring (`@Configuration`, `@Bean`, `@EnableWebSecurity`), the
  `HttpSecurity` builder calls and `http.build()`. These are configuration, not
  behaviour.
- Spring's path-pattern matcher. `IsAdminPath` takes `/admin/**` as the path
  `/admin` itself or any path starting with `/admin/`. Trailing-slash and
  encoding rules of the real matcher are not modelled.
- `hasRole` and `authenticated()` internals. An unauthenticated (anonymous)
  request carries none of the token's authorities, so the model denies it under
  both rules. The HTTP status of a denial (401 or 403) is the framework's job.
- Ascii.Upper: does not model the locale-dependent, full-Unicode
  `String.toUpperCase()`. Under a Turkish locale "i" becomes a dotted capital
  I, and "ß" becomes "SS", which changes the length. Only 'a'..'z' are mapped.
- `SimpleGrantedAuthority` objects are represented by their authority strings.
  Their identity is not modelled.
- Claim numbers are integers. The converter never reads a number; it only
  rejects one by the cast.
- A `roles` value that is some other Java `Collection` (for example a `Set`) is
  not modelled. Decoded JSON arrays are lists.
