/** The security configuration of the resource server: the converter from a
    token's realm roles to granted authorities, the hand-off of a verified
    token's claims to that converter, and the two authorization rules. */
module SecurityConfig {
  import opened Json
  import opened Ascii

  // ---------------------------------------------------------------------------
  // Failures of the converter
  // ---------------------------------------------------------------------------

  /** Where in the claims the converter failed. */
  datatype Site =
    | RealmAccessClaim          // the value under "realm_access"
    | RolesClaim                // the value under "roles" inside it
    | RoleElement(index: nat)   // one element of the roles collection

  /** The Java exception the converter raises. A null reference passes a cast
      and fails when it is first used (a null-pointer exception); any other
      value of the wrong type fails at the cast itself (a class-cast exception).
      `CastFailure` picks between the two. */
  datatype Error = NullPointer(site: Site) | ClassCast(site: Site)

  datatype Result<+T> = Ok(value: T) | Err(error: Error)

  /** The exception raised when `v` is cast to a type it does not have and then used. */
  function CastFailure(v: Value, site: Site): Error {
    if v.Null? then NullPointer(site) else ClassCast(site)
  }

  // ---------------------------------------------------------------------------
  // The realm-role authorities converter
  // ---------------------------------------------------------------------------

  const RealmAccessKey := "realm_access"
  const RolesKey := "roles"
  /** The prefix `hasRole` expects on an authority. */
  const RolePrefix := "ROLE_"

  /** `Map.getOrDefault`: a key that is present yields its value, even when
      that value is null; only an absent key yields the default. */
  function GetOrDefault(m: map<string, Value>, key: string, default: Value): Value {
    if key in m then m[key] else default
  }

  /** The cast to `Map<String, Object>`. */
  function AsMap(v: Value, site: Site): Result<map<string, Value>> {
    match v
    case Obj(fields) => Ok(fields)
    case _ => Err(CastFailure(v, site))
  }

  /** The cast to `Collection<String>`: only the array shape is a collection;
      the element type is not checked by the cast. */
  function AsCollection(v: Value, site: Site): Result<seq<Value>> {
    match v
    case Arr(items) => Ok(items)
    case _ => Err(CastFailure(v, site))
  }

  /** A well-formed authority: the role prefix followed by a role name in
      which no lower-case letter is left. */
  predicate IsRoleAuthority(a: string) {
    |RolePrefix| <= |a| && a[..|RolePrefix|] == RolePrefix && NoLower(a[|RolePrefix|..])
  }

  /** The authority granted for one role name: the prefix, then the name upper-cased. */
  function Authority(roleName: string): (a: string)
    ensures IsRoleAuthority(a)
    ensures |a| == |RolePrefix| + |roleName|
    ensures a[|RolePrefix|..] == Upper(roleName)
  {
    RolePrefix + Upper(roleName)
  }

  predicate AllStrings(roles: seq<Value>) {
    forall i :: 0 <= i < |roles| ==> roles[i].Str?
  }

  /** `e` is the exception the stream raises on `roles`: it is reported at the
      first element that is not a string, as a null dereference exactly when
      that element is null. */
  predicate FailsFirstAt(roles: seq<Value>, e: Error) {
    && e.site.RoleElement?
    && e.site.index < |roles|
    && !roles[e.site.index].Str?
    && (forall j :: 0 <= j < e.site.index ==> roles[j].Str?)
    && (e.NullPointer? <==> roles[e.site.index].Null?)
  }

  /** The stream pipeline over the roles collection: each element, in order,
      is turned into its authority and collected into a list. The stream is
      sequential, so the first element that is not a string stops it. */
  function MapRoles(roles: seq<Value>): (r: Result<seq<string>>)
    ensures r.Ok? <==> AllStrings(roles)
    ensures r.Ok? ==> |r.value| == |roles|
    ensures r.Ok? ==> forall i :: 0 <= i < |roles| ==> r.value[i] == Authority(roles[i].s)
    ensures r.Err? ==> FailsFirstAt(roles, r.error)
  {
    if roles == [] then Ok([])
    else
      var n := |roles| - 1;
      match MapRoles(roles[..n])
      case Err(e) => Err(e)
      case Ok(done) =>
        match roles[n]
        case Str(name) => Ok(done + [Authority(name)])
        case _ => Err(CastFailure(roles[n], RoleElement(n)))
  }

  /** The converter returned by `realmRolesAuthoritiesConverter`. Every
      authority it grants is well formed; a failure is reported at the claim
      that caused it. The lemmas below split its behaviour by the shape of
      the claims. */
  function Convert(claims: Claims): (r: Result<seq<string>>)
    ensures r.Ok? ==> forall i :: 0 <= i < |r.value| ==> IsRoleAuthority(r.value[i])
    ensures r.Err? && r.error.site == RealmAccessClaim ==>
      RealmAccessKey in claims && !claims[RealmAccessKey].Obj?
    ensures r.Err? && r.error.site == RolesClaim ==>
      && RealmAccessKey in claims && claims[RealmAccessKey].Obj?
      && RolesKey in claims[RealmAccessKey].fields
      && !claims[RealmAccessKey].fields[RolesKey].Arr?
    ensures r.Err? && r.error.site.RoleElement? ==>
      exists roles :: DeclaresRoles(claims, roles) && FailsFirstAt(roles, r.error)
  {
    match AsMap(GetOrDefault(claims, RealmAccessKey, Obj(map[])), RealmAccessClaim)
    case Err(e) => Err(e)
    case Ok(realmAccess) =>
      match AsCollection(GetOrDefault(realmAccess, RolesKey, Arr([])), RolesClaim)
      case Err(e) => Err(e)
      case Ok(roles) => MapRoles(roles)
  }

  /** The claims declare the roles collection `roles` under `realm_access.roles`. */
  predicate DeclaresRoles(claims: Claims, roles: seq<Value>) {
    && RealmAccessKey in claims
    && claims[RealmAccessKey].Obj?
    && RolesKey in claims[RealmAccessKey].fields
    && claims[RealmAccessKey].fields[RolesKey] == Arr(roles)
  }

  /** Without a `realm_access` claim the converter grants nothing, and does not fail. */
  lemma ConvertWithoutRealmAccess(claims: Claims)
    requires RealmAccessKey !in claims
    ensures Convert(claims) == Ok([])
  {
  }

  /** A `realm_access` object without `roles`, or with an empty `roles`
      array, grants nothing and does not fail. */
  lemma ConvertWithoutRoles(claims: Claims)
    requires RealmAccessKey in claims && claims[RealmAccessKey].Obj?
    requires var realmAccess := claims[RealmAccessKey].fields;
      RolesKey !in realmAccess || realmAccess[RolesKey] == Arr([])
    ensures Convert(claims) == Ok([])
  {
  }

  /** A `realm_access` that is present but not an object (null included) fails
      the cast or the lookup after it; it does not degrade to no authorities. */
  lemma ConvertRealmAccessNotObject(claims: Claims)
    requires RealmAccessKey in claims && !claims[RealmAccessKey].Obj?
    ensures Convert(claims).Err?
    ensures Convert(claims).error.site == RealmAccessClaim
    ensures Convert(claims).error.NullPointer? <==> claims[RealmAccessKey].Null?
  {
  }

  /** A `roles` that is present but not an array (null included) fails the
      cast or the stream after it; it does not degrade to no authorities. */
  lemma ConvertRolesNotArray(claims: Claims)
    requires RealmAccessKey in claims && claims[RealmAccessKey].Obj?
    requires var realmAccess := claims[RealmAccessKey].fields;
      RolesKey in realmAccess && !realmAccess[RolesKey].Arr?
    ensures Convert(claims).Err?
    ensures Convert(claims).error.site == RolesClaim
    ensures Convert(claims).error.NullPointer? <==> claims[RealmAccessKey].fields[RolesKey].Null?
  {
  }

  /** With a roles array declared, the converter succeeds exactly when every
      role is a string; it then grants one authority per role, in order and
      with duplicates kept, and otherwise fails at the first role that is not
      a string. */
  lemma ConvertDeclaredRoles(claims: Claims, roles: seq<Value>)
    requires DeclaresRoles(claims, roles)
    ensures Convert(claims).Ok? <==> AllStrings(roles)
    ensures Convert(claims).Ok? ==>
      && |Convert(claims).value| == |roles|
      && forall i :: 0 <= i < |roles| ==> Convert(claims).value[i] == RolePrefix + Upper(roles[i].s)
    ensures Convert(claims).Err? ==> FailsFirstAt(roles, Convert(claims).error)
  {
    assert Convert(claims) == MapRoles(roles);
  }

  /** An empty result means the token declares no roles: the converter never
      turns a malformed claim into an empty list of authorities. */
  lemma ConvertEmptyOnlyWithoutRoles(claims: Claims)
    requires Convert(claims) == Ok([])
    ensures || RealmAccessKey !in claims
            || (&& claims[RealmAccessKey].Obj?
                && (RolesKey !in claims[RealmAccessKey].fields
                    || claims[RealmAccessKey].fields[RolesKey] == Arr([])))
  {
    if RealmAccessKey in claims {
      var v := claims[RealmAccessKey];
      if !v.Obj? {
        ConvertRealmAccessNotObject(claims);
      } else if RolesKey in v.fields {
        var w := v.fields[RolesKey];
        if !w.Arr? {
          ConvertRolesNotArray(claims);
        } else {
          ConvertDeclaredRoles(claims, w.items);
        }
      }
    }
  }

  /** Every authority the converter grants carries the role prefix and no
      lower-case letter after it; upper-casing that suffix again changes nothing. */
  lemma ConvertGrantsRoleAuthorities(claims: Claims)
    requires Convert(claims).Ok?
    ensures forall a :: a in Convert(claims).value ==>
      IsRoleAuthority(a) && Upper(a[|RolePrefix|..]) == a[|RolePrefix|..]
  {
    forall a | a in Convert(claims).value
      ensures IsRoleAuthority(a) && Upper(a[|RolePrefix|..]) == a[|RolePrefix|..]
    {
      UpperFixedIffNoLower(a[|RolePrefix|..]);
    }
  }

  /** Role names that agree once upper-cased ("admin" and "Admin") are granted
      the same authorities. */
  lemma {:induction false} MapRolesIgnoresCase(roles: seq<Value>, roles': seq<Value>)
    requires |roles| == |roles'| && AllStrings(roles) && AllStrings(roles')
    requires forall i :: 0 <= i < |roles| ==> Upper(roles[i].s) == Upper(roles'[i].s)
    ensures MapRoles(roles) == MapRoles(roles')
  {
    var r, r' := MapRoles(roles), MapRoles(roles');
    assert |r.value| == |r'.value|;
    forall i | 0 <= i < |roles|
      ensures r.value[i] == r'.value[i]
    {
      assert r.value[i] == RolePrefix + Upper(roles[i].s);
    }
    assert r.value == r'.value;
  }

  /** Two tokens whose declared role names agree once upper-cased are granted
      the same authorities. */
  lemma ConvertIgnoresCase(claims: Claims, claims': Claims, roles: seq<Value>, roles': seq<Value>)
    requires DeclaresRoles(claims, roles) && DeclaresRoles(claims', roles')
    requires |roles| == |roles'| && AllStrings(roles) && AllStrings(roles')
    requires forall i :: 0 <= i < |roles| ==> Upper(roles[i].s) == Upper(roles'[i].s)
    ensures Convert(claims).Ok? && Convert(claims) == Convert(claims')
  {
    ConvertDeclaredRoles(claims, roles);
    MapRolesIgnoresCase(roles, roles');
    assert Convert(claims) == MapRoles(roles);
    assert Convert(claims') == MapRoles(roles');
  }

  // ---------------------------------------------------------------------------
  // The authentication converter
  // ---------------------------------------------------------------------------

  /** A verified token, seen through `getClaims()`; its header, signature and
      raw text are not part of this model. */
  datatype Jwt = Jwt(claims: Claims)

  /** The authentication built from a token: the token and its authorities. */
  datatype Authentication = JwtAuthentication(token: Jwt, authorities: seq<string>)

  /** The authentication converter hands the token's claims to the realm-role
      converter; an exception there propagates and no authentication results. */
  function Authenticate(jwt: Jwt): (r: Result<Authentication>)
    ensures r.Ok? <==> Convert(jwt.claims).Ok?
    ensures r.Ok? ==> r.value.token == jwt && r.value.authorities == Convert(jwt.claims).value
    ensures r.Err? ==> r.error == Convert(jwt.claims).error
  {
    match Convert(jwt.claims)
    case Ok(authorities) => Ok(JwtAuthentication(jwt, authorities))
    case Err(e) => Err(e)
  }

  // ---------------------------------------------------------------------------
  // The authorization rules
  // ---------------------------------------------------------------------------

  /** The request matchers used by the rules. */
  datatype Matcher = AdminPaths | AnyRequest

  /** What a rule demands of the request's authentication. */
  datatype Requirement = HasRole(role: string) | Authenticated

  datatype Rule = Rule(matcher: Matcher, requirement: Requirement)

  /** The rules in the order they are declared: admin paths need role ADMIN,
      any other request needs authentication. */
  const Rules := [Rule(AdminPaths, HasRole("ADMIN")), Rule(AnyRequest, Authenticated)]

  /** The authority that `hasRole("ADMIN")` looks for. */
  const AdminAuthority := "ROLE_ADMIN"

  // The pattern /admin/** taken as: the path /admin itself, or any path below
  // /admin/. It matches whole path segments: /administrator is not an admin path.
  predicate IsAdminPath(path: string)
    ensures IsAdminPath(path) <==>
      |path| >= 6 && path[..6] == "/admin" && (|path| == 6 || path[6] == '/')
  {
    path == "/admin" || (|path| >= 7 && path[..7] == "/admin/")
  }

  predicate Matches(m: Matcher, path: string) {
    match m
    case AdminPaths => IsAdminPath(path)
    case AnyRequest => true
  }

  /** A request that is not authenticated carries none of the token's
      authorities, so it meets neither requirement. */
  predicate Satisfies(req: Requirement, authenticated: bool, authorities: seq<string>) {
    match req
    case HasRole(role) => authenticated && RolePrefix + role in authorities
    case Authenticated => authenticated
  }

  /** The first rule whose matcher matches the path decides; a request no rule
      matches is denied. */
  function Decide(rules: seq<Rule>, path: string, authenticated: bool, authorities: seq<string>): (allowed: bool)
    ensures allowed <==> exists i :: (0 <= i < |rules| && Matches(rules[i].matcher, path)
      && (forall j :: 0 <= j < i ==> !Matches(rules[j].matcher, path))
      && Satisfies(rules[i].requirement, authenticated, authorities))
  {
    if rules == [] then false
    else if Matches(rules[0].matcher, path) then
      Satisfies(rules[0].requirement, authenticated, authorities)
    else
      Decide(rules[1..], path, authenticated, authorities)
  }

  /** In the configured rules the admin rule comes before the catch-all: every
      request meets a first matching rule, which demands role ADMIN for an
      admin path and only authentication for any other path. */
  lemma RulesFirstMatch(path: string)
    ensures exists i :: (0 <= i < |Rules| && Matches(Rules[i].matcher, path)
      && (forall j :: 0 <= j < i ==> !Matches(Rules[j].matcher, path))
      && Rules[i].requirement == if IsAdminPath(path) then HasRole("ADMIN") else Authenticated)
  {
    if IsAdminPath(path) {
      assert Matches(Rules[0].matcher, path);
    } else {
      assert !Matches(Rules[0].matcher, path) && Matches(Rules[1].matcher, path);
    }
  }

  /** The access decision of the configured rules. A request to an admin path is
      allowed exactly when it is authenticated and holds ROLE_ADMIN; any other
      request exactly when it is authenticated, whatever its authorities. */
  predicate Allowed(path: string, authenticated: bool, authorities: seq<string>)
    ensures Allowed(path, authenticated, authorities) <==>
      authenticated && (IsAdminPath(path) ==> AdminAuthority in authorities)
  {
    var allowed := Decide(Rules, path, authenticated, authorities);
    assert Matches(Rules[0].matcher, path) <==> IsAdminPath(path);
    assert Matches(Rules[1].matcher, path);
    assert RolePrefix + "ADMIN" == AdminAuthority;
    if IsAdminPath(path) then
      assert allowed <==> Satisfies(Rules[0].requirement, authenticated, authorities);
      allowed
    else
      assert allowed <==> Satisfies(Rules[1].requirement, authenticated, authorities);
      allowed
  }

  /** The authority granted for a role name is ROLE_ADMIN exactly when the
      name upper-cases to ADMIN. */
  lemma AuthorityIsAdmin(roleName: string)
    ensures Authority(roleName) == AdminAuthority <==> Upper(roleName) == "ADMIN"
  {
    var a := Authority(roleName);
    if Upper(roleName) == "ADMIN" {
      assert a == RolePrefix + "ADMIN";
    }
    if a == AdminAuthority {
      assert a[|RolePrefix|..] == "ADMIN";
    }
  }

  /** End to end: a token that declares the string roles `roles` reaches an
      admin path exactly when one of its role names upper-cases to
      ADMIN, and reaches any other path whatever its roles. */
  lemma AdminAccessFollowsRoles(jwt: Jwt, roles: seq<Value>, path: string)
    requires DeclaresRoles(jwt.claims, roles) && AllStrings(roles)
    ensures Authenticate(jwt).Ok?
    ensures IsAdminPath(path) ==>
      (Allowed(path, true, Authenticate(jwt).value.authorities) <==>
       exists i :: 0 <= i < |roles| && Upper(roles[i].s) == "ADMIN")
    ensures !IsAdminPath(path) ==> Allowed(path, true, Authenticate(jwt).value.authorities)
  {
    ConvertDeclaredRoles(jwt.claims, roles);
    var auths := Authenticate(jwt).value.authorities;
    assert auths == MapRoles(roles).value;
    if AdminAuthority in auths {
      var k :| 0 <= k < |auths| && auths[k] == AdminAuthority;
      AuthorityIsAdmin(roles[k].s);
    }
    if exists i :: 0 <= i < |roles| && Upper(roles[i].s) == "ADMIN" {
      var k :| 0 <= k < |roles| && Upper(roles[k].s) == "ADMIN";
      AuthorityIsAdmin(roles[k].s);
      assert auths[k] == AdminAuthority;
    }
  }

  /** A token without realm roles authenticates with no authorities: it is
      refused on admin paths and allowed everywhere else. */
  lemma NoRolesNoAdminAccess(jwt: Jwt, path: string)
    requires RealmAccessKey !in jwt.claims
    ensures Authenticate(jwt).Ok? && Authenticate(jwt).value.authorities == []
    ensures Allowed(path, true, Authenticate(jwt).value.authorities) <==> !IsAdminPath(path)
  {
    ConvertWithoutRealmAccess(jwt.claims);
  }

  /** Two roles are granted in the order they are declared. */
  lemma ConvertKeepsOrder()
    ensures Convert(map[RealmAccessKey := Obj(map[RolesKey := Arr([Str("admin"), Str("user")])])])
      == Ok(["ROLE_ADMIN", "ROLE_USER"])
  {
    var roles := [Str("admin"), Str("user")];
    var claims := map[RealmAccessKey := Obj(map[RolesKey := Arr(roles)])];
    assert DeclaresRoles(claims, roles);
    ConvertDeclaredRoles(claims, roles);
    assert AllStrings(roles);
    var granted := Convert(claims).value;
    assert |granted| == 2;
    assert Upper("admin") == "ADMIN";
    assert Upper("user") == "USER";
    assert granted[0] == "ROLE_ADMIN";
    assert granted[1] == "ROLE_USER";
    assert granted == ["ROLE_ADMIN", "ROLE_USER"];
  }

  /** A mixed-case role is upper-cased. */
  lemma ConvertUpperCasesRole()
    ensures Convert(map[RealmAccessKey := Obj(map[RolesKey := Arr([Str("Admin")])])])
      == Ok(["ROLE_ADMIN"])
  {
    var roles := [Str("Admin")];
    var claims := map[RealmAccessKey := Obj(map[RolesKey := Arr(roles)])];
    assert DeclaresRoles(claims, roles);
    ConvertDeclaredRoles(claims, roles);
    assert AllStrings(roles);
    var granted := Convert(claims).value;
    assert |granted| == 1;
    assert Upper("Admin") == "ADMIN";
    assert granted[0] == "ROLE_ADMIN";
    assert granted == ["ROLE_ADMIN"];
  }

  /** A duplicated role is granted twice. */
  lemma ConvertKeepsDuplicates()
    ensures Convert(map[RealmAccessKey := Obj(map[RolesKey := Arr([Str("admin"), Str("admin")])])])
      == Ok(["ROLE_ADMIN", "ROLE_ADMIN"])
  {
    var roles := [Str("admin"), Str("admin")];
    var claims := map[RealmAccessKey := Obj(map[RolesKey := Arr(roles)])];
    assert DeclaresRoles(claims, roles);
    ConvertDeclaredRoles(claims, roles);
    assert AllStrings(roles);
    var granted := Convert(claims).value;
    assert |granted| == 2;
    assert Upper("admin") == "ADMIN";
    assert granted[0] == granted[1] == "ROLE_ADMIN";
    assert granted == ["ROLE_ADMIN", "ROLE_ADMIN"];
  }
}
