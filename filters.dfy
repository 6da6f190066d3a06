/**
  Row-level authorisation for the RBAC web console: the permission helpers of
  AirflowFilter and the query narrowing of DagFilter.

  The request environment that the Python code reads from ambient globals
  (the current user, the AUTH_ROLE_PUBLIC setting and the security manager's
  role lookup) is passed in explicitly as a Context.
 */
module Filters {

  datatype Option<T> = None | Some(value: T)

  /** One permission-on-view-menu grant of a role: permission.name and view_menu.name. */
  datatype PermissionView = PermissionView(permissionName: string, viewMenuName: string)

  /** A role as the security manager stores it: a name and its grants, in order. */
  datatype Role = Role(name: string, permissions: seq<PermissionView>)

  /** The current user: anonymous, or logged in with a list of roles. */
  datatype User = Anonymous | Authenticated(roles: seq<Role>)

  /**
    Everything the filter reads besides its arguments: the current user, the
    configured AUTH_ROLE_PUBLIC value (absent when not set), and the security
    manager's lookup of a role by name.
   */
  datatype Context = Context(user: User, authRolePublic: Option<string>, findRole: string -> Role)

  /** The (permission name, view menu name) tuples that make up a permission set. */
  type PermPair = (string, string)

  /** The role names that always see every DAG. */
  const AllDagsRoleNames: seq<string> := ["Admin", "Viewer", "Op", "User"]
  const CanDagRead: string := "can_dag_read"
  const CanDagEdit: string := "can_dag_edit"
  const AllDags: string := "all_dags"

  // ---------------------------------------------------------------------------
  // Role resolution
  // ---------------------------------------------------------------------------

  /** Python's `if public_role`: a missing setting and an empty string both count as unset. */
  predicate PublicRoleConfigured(setting: Option<string>)
  {
    setting.Some? && setting.value != ""
  }

  /** get_user_roles: the user's own roles, or the public role for an anonymous user. */
  function GetUserRoles(c: Context): seq<Role>
  {
    match c.user
    case Anonymous =>
      if PublicRoleConfigured(c.authRolePublic) then [c.findRole(c.authRolePublic.value)] else []
    case Authenticated(roles) => roles
  }

  lemma AuthenticatedRolesVerbatim(c: Context)
    requires c.user.Authenticated?
    ensures GetUserRoles(c) == c.user.roles
  {
  }

  lemma AnonymousRoles(c: Context)
    requires c.user.Anonymous?
    ensures |GetUserRoles(c)| <= 1
    ensures PublicRoleConfigured(c.authRolePublic) <==> |GetUserRoles(c)| == 1
    ensures PublicRoleConfigured(c.authRolePublic) ==> GetUserRoles(c)[0] == c.findRole(c.authRolePublic.value)
  {
  }

  // ---------------------------------------------------------------------------
  // Permission set
  // ---------------------------------------------------------------------------

  function GrantPair(g: PermissionView): PermPair
  {
    (g.permissionName, g.viewMenuName)
  }

  /** The tuples contributed by a list of grants. */
  function GrantPairs(grants: seq<PermissionView>): set<PermPair>
  {
    set g | g in grants :: GrantPair(g)
  }

  /** Reference definition: the union, role by role, of every role's grant tuples. */
  function PermissionSet(roles: seq<Role>): set<PermPair>
  {
    if roles == [] then {} else GrantPairs(roles[0].permissions) + PermissionSet(roles[1..])
  }

  /** A tuple is in the permission set exactly when some role has a grant that yields it. */
  lemma {:induction false} PermissionSetMembers(roles: seq<Role>, p: PermPair)
    ensures p in PermissionSet(roles) <==>
            exists r, g :: r in roles && g in r.permissions && GrantPair(g) == p
  {
    if roles != [] {
      PermissionSetMembers(roles[1..], p);
      if p in GrantPairs(roles[0].permissions) {
        var g :| g in roles[0].permissions && GrantPair(g) == p;
        assert roles[0] in roles;
      } else if p in PermissionSet(roles[1..]) {
        var r, g :| r in roles[1..] && g in r.permissions && GrantPair(g) == p;
        assert r in roles;
      } else {
        forall r, g | r in roles && g in r.permissions
          ensures GrantPair(g) != p
        {
          if r == roles[0] {
            assert GrantPair(g) in GrantPairs(roles[0].permissions);
          } else {
            assert r in roles[1..];
          }
        }
      }
    }
  }

  /** Appending a role adds exactly its grant tuples. */
  lemma {:induction false} PermissionSetAppend(roles: seq<Role>, r: Role)
    ensures PermissionSet(roles + [r]) == PermissionSet(roles) + GrantPairs(r.permissions)
  {
    if roles == [] {
      assert roles + [r] == [r];
      assert [r][1..] == [];
    } else {
      assert (roles + [r])[1..] == roles[1..] + [r];
      PermissionSetAppend(roles[1..], r);
    }
  }

  /** The permission set of a concatenation is the union of the two permission sets. */
  lemma {:induction false} PermissionSetConcat(a: seq<Role>, b: seq<Role>)
    ensures PermissionSet(a + b) == PermissionSet(a) + PermissionSet(b)
  {
    if a == [] {
      assert a + b == b;
    } else {
      assert (a + b)[1..] == a[1..] + b;
      PermissionSetConcat(a[1..], b);
    }
  }

  /** A role without grants contributes nothing. */
  lemma RoleWithoutGrantsAddsNothing(roles: seq<Role>, name: string)
    ensures PermissionSet(roles + [Role(name, [])]) == PermissionSet(roles)
  {
    PermissionSetAppend(roles, Role(name, []));
  }

  /** Listing a role a second time, anywhere, changes nothing: grants collapse. */
  lemma DuplicateRoleCollapses(roles: seq<Role>, k: nat)
    requires k < |roles|
    ensures PermissionSet(roles + [roles[k]]) == PermissionSet(roles)
  {
    PermissionSetAppend(roles, roles[k]);
    forall p | p in GrantPairs(roles[k].permissions)
      ensures p in PermissionSet(roles)
    {
      var g :| g in roles[k].permissions && GrantPair(g) == p;
      PermissionSetMembers(roles, p);
      assert roles[k] in roles;
    }
  }

  /** The permission set depends only on which roles are held, not on their order or repetition. */
  lemma PermissionSetIgnoresOrder(a: seq<Role>, b: seq<Role>)
    requires forall r :: r in a <==> r in b
    ensures PermissionSet(a) == PermissionSet(b)
  {
    forall p
      ensures p in PermissionSet(a) <==> p in PermissionSet(b)
    {
      PermissionSetMembers(a, p);
      PermissionSetMembers(b, p);
    }
  }

  /** Two roles granting the same pair yield a one-element permission set. */
  lemma SharedGrantCountsOnce(x: string, y: string, grant: PermissionView)
    ensures |PermissionSet([Role(x, [grant]), Role(y, [grant])])| == 1
  {
    var roles := [Role(x, [grant]), Role(y, [grant])];
    assert GrantPairs([grant]) == {GrantPair(grant)};
    assert roles[1..] == [Role(y, [grant])];
    assert roles[1..][1..] == [];
    assert PermissionSet(roles[1..]) == GrantPairs([grant]) + PermissionSet([]);
    assert PermissionSet(roles) == {GrantPair(grant)};
  }

  /**
    get_all_permissions: the set of (permission name, view menu name) tuples
    over all resolved roles, built by adding one tuple per grant.
   */
  method GetAllPermissions(c: Context) returns (perms: set<PermPair>)
    ensures perms == PermissionSet(GetUserRoles(c))
  {
    var roles := GetUserRoles(c);
    perms := {};
    var i := 0;
    while i < |roles|
      invariant 0 <= i <= |roles|
      invariant perms == PermissionSet(roles[..i])
    {
      var grants := roles[i].permissions;
      var j := 0;
      while j < |grants|
        invariant 0 <= j <= |grants|
        invariant perms == PermissionSet(roles[..i]) + GrantPairs(grants[..j])
      {
        assert grants[..j + 1] == grants[..j] + [grants[j]];
        perms := perms + {GrantPair(grants[j])};
        j := j + 1;
      }
      assert grants[..j] == grants;
      assert roles[..i + 1] == roles[..i] + [roles[i]];
      PermissionSetAppend(roles[..i], roles[i]);
      i := i + 1;
    }
    assert roles[..i] == roles;
  }

  // ---------------------------------------------------------------------------
  // Access questions
  // ---------------------------------------------------------------------------

  /** The argument of has_role: one role name, or a list of them. */
  datatype RoleNames = OneName(name: string) | NameList(names: seq<string>)

  /** A single name is wrapped into a one-element list. */
  function NameListOf(q: RoleNames): seq<string>
  {
    match q
    case OneName(n) => [n]
    case NameList(ns) => ns
  }

  /** Python's `any([r.name in names for r in roles])`. */
  function AnyRoleNamed(roles: seq<Role>, names: seq<string>): bool
  {
    if roles == [] then false else roles[0].name in names || AnyRoleNamed(roles[1..], names)
  }

  lemma {:induction false} AnyRoleNamedExists(roles: seq<Role>, names: seq<string>)
    ensures AnyRoleNamed(roles, names) <==> exists r :: r in roles && r.name in names
  {
    if roles != [] {
      AnyRoleNamedExists(roles[1..], names);
      if roles[0].name in names {
        assert roles[0] in roles;
      } else {
        forall r | r in roles && r.name in names
          ensures r in roles[1..]
        {
          assert r != roles[0];
        }
      }
    }
  }

  /** has_role */
  function HasRole(c: Context, q: RoleNames): bool
  {
    AnyRoleNamed(GetUserRoles(c), NameListOf(q))
  }

  /** has_role holds exactly when some resolved role's name is among the given names. */
  lemma HasRoleIff(c: Context, q: RoleNames)
    ensures HasRole(c, q) <==> exists r :: r in GetUserRoles(c) && r.name in NameListOf(q)
  {
    AnyRoleNamedExists(GetUserRoles(c), NameListOf(q));
  }

  /** has_role(x) and has_role([x]) agree, and both test for a role named x. */
  lemma HasRoleSingleName(c: Context, x: string)
    ensures HasRole(c, OneName(x)) == HasRole(c, NameList([x]))
    ensures HasRole(c, OneName(x)) <==> exists r :: r in GetUserRoles(c) && r.name == x
  {
    HasRoleIff(c, OneName(x));
  }

  /** With an empty list of names, or with no roles, has_role is false. */
  lemma HasRoleFalseCases(c: Context, q: RoleNames)
    ensures HasRole(c, NameList([])) == false
    ensures GetUserRoles(c) == [] ==> !HasRole(c, q)
  {
    HasRoleIff(c, NameList([]));
  }

  /** A user whose only role is Admin holds both "Admin" and one of ["Admin", "Viewer"]. */
  lemma HasRoleAdminForms(c: Context, grants: seq<PermissionView>)
    requires c.user == Authenticated([Role("Admin", grants)])
    ensures HasRole(c, OneName("Admin")) && HasRole(c, NameList(["Admin", "Viewer"]))
  {
  }

  /** has_perm */
  function HasPerm(c: Context, permissionName: string, viewMenuName: string): bool
  {
    (permissionName, viewMenuName) in PermissionSet(GetUserRoles(c))
  }

  /** has_perm holds exactly when some resolved role carries that grant. */
  lemma HasPermIff(c: Context, permissionName: string, viewMenuName: string)
    ensures HasPerm(c, permissionName, viewMenuName) <==>
            exists r :: r in GetUserRoles(c) && PermissionView(permissionName, viewMenuName) in r.permissions
  {
    var p := (permissionName, viewMenuName);
    PermissionSetMembers(GetUserRoles(c), p);
    if HasPerm(c, permissionName, viewMenuName) {
      var r, g :| r in GetUserRoles(c) && g in r.permissions && GrantPair(g) == p;
      assert g == PermissionView(permissionName, viewMenuName);
    } else {
      forall r | r in GetUserRoles(c)
        ensures PermissionView(permissionName, viewMenuName) !in r.permissions
      {
        assert GrantPair(PermissionView(permissionName, viewMenuName)) == p;
      }
    }
  }

  /**
    get_view_menus: every view menu paired with the given permission name in
    the permission set, collected by a scan of that set.
   */
  method GetViewMenus(c: Context, permissionName: string) returns (vm: set<string>)
    ensures forall v :: v in vm <==> HasPerm(c, permissionName, v)
  {
    var perms := GetAllPermissions(c);
    vm := {};
    var rest := perms;
    while rest != {}
      invariant rest <= perms
      invariant forall v :: v in vm <==> (permissionName, v) in perms - rest
      decreases rest
    {
      var pv :| pv in rest;
      if pv.0 == permissionName {
        vm := vm + {pv.1};
      }
      rest := rest - {pv};
    }
  }

  /** has_all_dags_access: a listed role name, or read or edit permission on all_dags. */
  function HasAllDagsAccess(c: Context): bool
  {
    HasRole(c, NameList(AllDagsRoleNames)) ||
    HasPerm(c, CanDagRead, AllDags) ||
    HasPerm(c, CanDagEdit, AllDags)
  }

  /** The gate stated directly over the resolved roles and their grants. */
  lemma AllDagsAccessIff(c: Context)
    ensures HasAllDagsAccess(c) <==>
            (exists r :: r in GetUserRoles(c) && r.name in AllDagsRoleNames) ||
            (exists r :: r in GetUserRoles(c) && PermissionView(CanDagRead, AllDags) in r.permissions) ||
            (exists r :: r in GetUserRoles(c) && PermissionView(CanDagEdit, AllDags) in r.permissions)
  {
    HasRoleIff(c, NameList(AllDagsRoleNames));
    HasPermIff(c, CanDagRead, AllDags);
    HasPermIff(c, CanDagEdit, AllDags);
  }

  /** Each of the three ways through the gate suffices on its own. */
  lemma AllDagsAccessEachDisjunct(c: Context, r: Role)
    requires r in GetUserRoles(c)
    ensures r.name in AllDagsRoleNames ==> HasAllDagsAccess(c)
    ensures PermissionView(CanDagRead, AllDags) in r.permissions ==> HasAllDagsAccess(c)
    ensures PermissionView(CanDagEdit, AllDags) in r.permissions ==> HasAllDagsAccess(c)
  {
    AllDagsAccessIff(c);
  }

  /** No one of the three ways is necessary: each opens the gate while the other two are closed. */
  lemma AllDagsAccessNoDisjunctNecessary(find: string -> Role)
    ensures var c := Context(Authenticated([Role("Op", [])]), None, find);
            HasAllDagsAccess(c) && !HasPerm(c, CanDagRead, AllDags) && !HasPerm(c, CanDagEdit, AllDags)
    ensures var c := Context(Authenticated([Role("reader", [PermissionView(CanDagRead, AllDags)])]), None, find);
            HasAllDagsAccess(c) && !HasRole(c, NameList(AllDagsRoleNames)) && !HasPerm(c, CanDagEdit, AllDags)
    ensures var c := Context(Authenticated([Role("editor", [PermissionView(CanDagEdit, AllDags)])]), None, find);
            HasAllDagsAccess(c) && !HasRole(c, NameList(AllDagsRoleNames)) && !HasPerm(c, CanDagRead, AllDags)
  {
    var c1 := Context(Authenticated([Role("Op", [])]), None, find);
    HasPermIff(c1, CanDagRead, AllDags);
    HasPermIff(c1, CanDagEdit, AllDags);
    AllDagsAccessIff(c1);
    var c2 := Context(Authenticated([Role("reader", [PermissionView(CanDagRead, AllDags)])]), None, find);
    HasPermIff(c2, CanDagEdit, AllDags);
    HasRoleIff(c2, NameList(AllDagsRoleNames));
    AllDagsAccessIff(c2);
    var c3 := Context(Authenticated([Role("editor", [PermissionView(CanDagEdit, AllDags)])]), None, find);
    HasPermIff(c3, CanDagRead, AllDags);
    HasRoleIff(c3, NameList(AllDagsRoleNames));
    AllDagsAccessIff(c3);
  }

  /**
    `more` holds at least what `fewer` holds: every role of `fewer` has a
    namesake in `more` carrying all of its grants.
   */
  ghost predicate Covers(more: seq<Role>, fewer: seq<Role>)
  {
    forall r :: r in fewer ==>
      exists r' :: r' in more && r'.name == r.name &&
        forall g :: g in r.permissions ==> g in r'.permissions
  }

  /** Monotone gate: more roles or more grants never take full DAG access away. */
  lemma AllDagsAccessMonotone(c1: Context, c2: Context)
    requires Covers(GetUserRoles(c2), GetUserRoles(c1))
    requires HasAllDagsAccess(c1)
    ensures HasAllDagsAccess(c2)
  {
    AllDagsAccessIff(c1);
    AllDagsAccessIff(c2);
    var r :| r in GetUserRoles(c1) &&
             (r.name in AllDagsRoleNames ||
              PermissionView(CanDagRead, AllDags) in r.permissions ||
              PermissionView(CanDagEdit, AllDags) in r.permissions);
    var r' :| r' in GetUserRoles(c2) && r'.name == r.name &&
              forall g :: g in r.permissions ==> g in r'.permissions;
    AllDagsAccessEachDisjunct(c2, r');
  }

  /** Concretely: giving a logged-in user extra roles keeps full DAG access. */
  lemma AllDagsAccessSurvivesExtraRoles(c: Context, extra: seq<Role>)
    requires c.user.Authenticated? && HasAllDagsAccess(c)
    ensures HasAllDagsAccess(c.(user := Authenticated(c.user.roles + extra)))
  {
    var c2 := c.(user := Authenticated(c.user.roles + extra));
    forall r | r in GetUserRoles(c)
      ensures exists r' :: r' in GetUserRoles(c2) && r'.name == r.name &&
                forall g :: g in r.permissions ==> g in r'.permissions
    {
      assert r in GetUserRoles(c2);
    }
    AllDagsAccessMonotone(c, c2);
  }

  /** An anonymous user without a configured public role holds nothing and is always narrowed. */
  lemma AnonymousWithoutPublicRole(c: Context)
    requires c.user.Anonymous? && !PublicRoleConfigured(c.authRolePublic)
    ensures GetUserRoles(c) == [] && PermissionSet(GetUserRoles(c)) == {}
    ensures forall p, v :: !HasPerm(c, p, v)
    ensures !HasAllDagsAccess(c)
  {
  }

  /** An anonymous user whose public role grants can_dag_read on all_dags sees everything. */
  lemma AnonymousPublicRoleDagRead(c: Context)
    requires c.user.Anonymous? && PublicRoleConfigured(c.authRolePublic)
    requires PermissionView(CanDagRead, AllDags) in c.findRole(c.authRolePublic.value).permissions
    ensures HasAllDagsAccess(c)
  {
  }

  // ---------------------------------------------------------------------------
  // DagFilter
  // ---------------------------------------------------------------------------

  /**
    `query.filter(model.dag_id.in_(ids))`: the rows whose dag id is among the
    given ids, each with its multiplicity. That their order is kept is
    FilterDagIdsKeepsOrder.
   */
  function FilterDagIds<R(==,!new)>(rows: seq<R>, dagId: R -> string, ids: set<string>): (kept: seq<R>)
    ensures |kept| <= |rows|
    ensures forall x :: multiset(kept)[x] == if dagId(x) in ids then multiset(rows)[x] else 0
  {
    if rows == [] then []
    else
      assert rows == [rows[0]] + rows[1..];
      var rest := FilterDagIds(rows[1..], dagId, ids);
      if dagId(rows[0]) in ids then [rows[0]] + rest else rest
  }

  /**
    DagFilter.apply: the query itself when the user may see every DAG,
    otherwise only its rows whose dag id is accessible.
   */
  function DagFilterApply<R(==,!new)>(c: Context, query: seq<R>, dagId: R -> string, accessibleDagIds: set<string>)
    : (result: seq<R>)
    ensures HasAllDagsAccess(c) ==> result == query
    ensures !HasAllDagsAccess(c) ==>
              forall x :: multiset(result)[x] == if dagId(x) in accessibleDagIds then multiset(query)[x] else 0
    ensures multiset(result) <= multiset(query)
  {
    if HasAllDagsAccess(c) then query else FilterDagIds(query, dagId, accessibleDagIds)
  }

  /** Fail closed: a narrowed result holds only accessible DAGs, and nothing at all when none is accessible. */
  lemma DagFilterFailsClosed<R(!new)>(c: Context, query: seq<R>, dagId: R -> string, accessibleDagIds: set<string>)
    requires !HasAllDagsAccess(c)
    ensures forall x :: x in DagFilterApply(c, query, dagId, accessibleDagIds) ==> dagId(x) in accessibleDagIds
    ensures accessibleDagIds == {} ==> DagFilterApply(c, query, dagId, accessibleDagIds) == []
  {
  }

  lemma {:induction false} FilterDagIdsIdempotent<R(!new)>(rows: seq<R>, dagId: R -> string, ids: set<string>)
    ensures FilterDagIds(FilterDagIds(rows, dagId, ids), dagId, ids) == FilterDagIds(rows, dagId, ids)
  {
    if rows != [] {
      FilterDagIdsIdempotent(rows[1..], dagId, ids);
      var rest := FilterDagIds(rows[1..], dagId, ids);
      if dagId(rows[0]) in ids {
        assert ([rows[0]] + rest)[1..] == rest;
      }
    }
  }

  /**
    The filter keeps the query's order: it works row by row, so filtering a
    concatenation is concatenating the filtered parts.
   */
  lemma {:induction false} FilterDagIdsKeepsOrder<R(!new)>(a: seq<R>, b: seq<R>, dagId: R -> string, ids: set<string>)
    ensures FilterDagIds(a + b, dagId, ids) == FilterDagIds(a, dagId, ids) + FilterDagIds(b, dagId, ids)
  {
    if a == [] {
      assert a + b == b;
    } else {
      assert (a + b)[1..] == a[1..] + b;
      FilterDagIdsKeepsOrder(a[1..], b, dagId, ids);
    }
  }

  /** A single row is kept exactly when its dag id is accessible. */
  lemma FilterDagIdsSingleRow<R(!new)>(x: R, dagId: R -> string, ids: set<string>)
    ensures FilterDagIds([x], dagId, ids) == if dagId(x) in ids then [x] else []
  {
  }

  /** Narrowing an already narrowed query changes nothing. */
  lemma DagFilterIdempotent<R(!new)>(c: Context, query: seq<R>, dagId: R -> string, accessibleDagIds: set<string>)
    ensures DagFilterApply(c, DagFilterApply(c, query, dagId, accessibleDagIds), dagId, accessibleDagIds)
            == DagFilterApply(c, query, dagId, accessibleDagIds)
  {
    FilterDagIdsIdempotent(query, dagId, accessibleDagIds);
  }

  /** A user without full access who may see dag_a and dag_c gets exactly those rows. */
  lemma DagFilterExample(c: Context)
    requires !HasAllDagsAccess(c)
    ensures DagFilterApply(c, ["dag_a", "dag_b", "dag_c"], (s: string) => s, {"dag_a", "dag_c"}) == ["dag_a", "dag_c"]
  {
    var rows := ["dag_a", "dag_b", "dag_c"];
    assert rows[1..] == ["dag_b", "dag_c"];
    assert rows[1..][1..] == ["dag_c"];
    assert rows[1..][1..][1..] == [];
  }
}
