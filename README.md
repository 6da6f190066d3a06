# Row-level DAG authorisation of the RBAC web console

This project models `airflow/www_rbac/filters.py`, the filter that decides which
DAG rows the current web-console user may see. It has two parts:

- `AirflowFilter` turns the current user into roles and a permission set. It
  answers four questions: does the user hold a role, does the user hold a
  permission, which view menus go with a permission name, and may the user
  see all DAGs.
- `DagFilter.apply` returns the query unchanged when the user may see all DAGs.
  Otherwise it keeps only the rows whose `dag_id` is in the accessible set.

Everything lives in one module, `Filters` (`filters.dfy`):

- The request environment is an explicit `Context`. The Python code reads it
  from globals: `g.user`, the `AUTH_ROLE_PUBLIC` setting and
  `appbuilder.sm.find_role`.
- Roles are values: a name plus the ordered list of `PermissionView` grants.
- `GetAllPermissions` and `GetViewMenus` are methods. Like the source, they
  build a set by adding to it inside loops, and each is proved equal to a
  reference definition.
- `PermissionSet` is the union, role by role, of each role's grant tuples.
- `HasRole`, `HasPerm`, `HasAllDagsAccess` and `DagFilterApply` are functions,
  as in the source. They use `PermissionSet` in place of the method.
- A query is a sequence of rows together with their `dag_id` accessor. The
  `in_` filter keeps each accessible row with its multiplicity.

Two details of the code, both on lines 38-39, fix the model:

- The public role counts as configured only when the setting is present and
  non-empty. This is Python's truthiness test `if public_role`.
- A public-role name that `find_role` cannot resolve gives `[None]`, not an
  empty list. That case is left out (see below).

## Model

| member | source | states |
|---|---|---|
| `Filters.AuthenticatedRolesVerbatim` | airflow/www_rbac/filters.py:36-40 | `GetUserRoles`: a logged-in user's resolved roles are exactly their own roles, in the same order |
| `Filters.AnonymousRoles` | airflow/www_rbac/filters.py:36-39 | `GetUserRoles`: an anonymous user resolves to at most one role; to exactly one, the looked-up public role, iff AUTH_ROLE_PUBLIC is set and non-empty |
| `Filters.AnonymousWithoutPublicRole` | airflow/www_rbac/filters.py:36-40 | an anonymous user with no public role has no roles, an empty permission set, no permission at all, and no all-DAG access |
| `Filters.AnonymousPublicRoleDagRead` | airflow/www_rbac/filters.py:37-39 | an anonymous user whose public role grants can_dag_read on all_dags has all-DAG access |
| `Filters.GetAllPermissions` | airflow/www_rbac/filters.py:42-50 | the nested loops build exactly the union of every resolved role's (permission, view menu) tuples |
| `Filters.PermissionSetMembers` | airflow/www_rbac/filters.py:46-50 | a tuple is in the permission set iff some resolved role has a grant yielding that tuple |
| `Filters.PermissionSetAppend` | airflow/www_rbac/filters.py:47-49 | one more role adds exactly that role's grant tuples |
| `Filters.PermissionSetConcat` | airflow/www_rbac/filters.py:46-50 | the permission set of two role lists is the union of their permission sets |
| `Filters.RoleWithoutGrantsAddsNothing` | airflow/www_rbac/filters.py:47-49 | a role with no grants contributes nothing |
| `Filters.DuplicateRoleCollapses` | airflow/www_rbac/filters.py:46-50 | repeating a role adds nothing: duplicate grants collapse |
| `Filters.PermissionSetIgnoresOrder` | airflow/www_rbac/filters.py:46-50 | two role lists holding the same roles, in any order or multiplicity, give the same permission set |
| `Filters.SharedGrantCountsOnce` | airflow/www_rbac/filters.py:46-50 | two roles with the same single grant give a permission set of size one |
| `Filters.AnyRoleNamedExists` | airflow/www_rbac/filters.py:58-59 | `AnyRoleNamed`: the `any` over the role list is true iff some role's name is among the names |
| `Filters.HasRoleIff` | airflow/www_rbac/filters.py:52-59 | `HasRole` (with `NameListOf` and `AnyRoleNamed`): has_role is true iff some resolved role's name is in the normalised name list |
| `Filters.HasRoleSingleName` | airflow/www_rbac/filters.py:56-57 | has_role(x) equals has_role([x]), and is true iff some resolved role is named x |
| `Filters.HasRoleFalseCases` | airflow/www_rbac/filters.py:56-59 | has_role is false for an empty name list, and false for every argument when there are no roles |
| `Filters.HasRoleAdminForms` | airflow/www_rbac/filters.py:52-59 | a user whose only role is Admin holds both "Admin" and one of ["Admin", "Viewer"] |
| `Filters.HasPermIff` | airflow/www_rbac/filters.py:61-65 | `HasPerm`: has_perm(p, v) is true iff some resolved role carries the grant (p, v) |
| `Filters.GetViewMenus` | airflow/www_rbac/filters.py:67-75 | the scan returns exactly the view menus v for which has_perm(p, v) holds |
| `Filters.AllDagsAccessIff` | airflow/www_rbac/filters.py:77-87 | `HasAllDagsAccess`: all-DAG access iff some role is named Admin, Viewer, Op or User, or some role grants can_dag_read or can_dag_edit on all_dags |
| `Filters.AllDagsAccessEachDisjunct` | airflow/www_rbac/filters.py:84-87 | each of the three conditions alone grants all-DAG access |
| `Filters.AllDagsAccessNoDisjunctNecessary` | airflow/www_rbac/filters.py:84-87 | for each condition there is a user who passes the gate by that condition alone |
| `Filters.AllDagsAccessMonotone` | airflow/www_rbac/filters.py:77-87 | more roles, or roles with more grants, never take all-DAG access away |
| `Filters.AllDagsAccessSurvivesExtraRoles` | airflow/www_rbac/filters.py:77-87 | adding roles to a logged-in user who has all-DAG access keeps it |
| `Filters.FilterDagIds` | airflow/www_rbac/filters.py:95 | the `in_` filter keeps every row whose dag id is accessible, as often as it occurs, drops every other row, and never grows the query |
| `Filters.FilterDagIdsIdempotent` | airflow/www_rbac/filters.py:95 | applying the `in_` filter twice gives the same rows as applying it once |
| `Filters.FilterDagIdsKeepsOrder` | airflow/www_rbac/filters.py:95 | the `in_` filter keeps the query's order: filtering a concatenation concatenates the filtered parts |
| `Filters.FilterDagIdsSingleRow` | airflow/www_rbac/filters.py:95 | a single row is kept, once, iff its dag id is accessible; with the order lemma this fixes the filtered sequence exactly |
| `Filters.DagFilterApply` | airflow/www_rbac/filters.py:91-95 | with all-DAG access the query is returned unchanged; otherwise exactly its accessible rows; always a sub-multiset of the query |
| `Filters.DagFilterFailsClosed` | airflow/www_rbac/filters.py:94-95 | a narrowed result holds only accessible DAGs, and is empty when no DAG is accessible |
| `Filters.DagFilterIdempotent` | airflow/www_rbac/filters.py:91-95 | narrowing an already narrowed query changes nothing |
| `Filters.DagFilterExample` | airflow/www_rbac/filters.py:91-95 | without all-DAG access and with dag_a and dag_c accessible, rows dag_a, dag_b, dag_c narrow to dag_a, dag_c |

## Left out

- Flask's `g.user` is not read. The user is the explicit `Context.user` field.
- The global `appbuilder` is not modelled. The `AUTH_ROLE_PUBLIC` setting and
  `sm.find_role` are fields of `Context`.
- `find_role` is modelled as a total lookup that always returns a role. When
  it returns `None`, the code yields `[None]`, which fails later. That is a
  fault of the foreign call, and the model invents no recovery for it.
- `sm.get_accessible_dag_ids()` queries the database, so it is not modelled.
  Its result is the input set `accessibleDagIds`. The model does not capture
  that the source looks the set up only when the gate is closed.
- SQLAlchemy query building and `BaseFilter` are not modelled. A query is the
  sequence of rows it would return, and `in_` is set membership.
- The `func` argument of `apply` is unused by the source, so it has no
  counterpart.
- `has_role` with a non-list argument of another kind, such as a tuple, is
  treated by the source as one name. Only the two forms the source documents
  are modelled: one name or a list of names.
- The docstring's notes on caching and database round trips describe
  performance, not behaviour, so they are left out.
