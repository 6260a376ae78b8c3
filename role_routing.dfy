/** `resolvePostLoginRoute`: where the frontend sends a user after login,
    by the first entry of the role table that one of the user's roles,
    upper-cased, names. */
module RoleRouting {
  import opened Wrappers
  import opened Text

  datatype RouteConfig = RouteConfig(role: string, path: string)

  const ADMIN_ROUTE: string := "/admin/dashboard"
  const USER_ROUTE: string := "/app/home"
  const FALLBACK_ROUTE: string := "/app/home"
  const ROLE_ROUTES: seq<RouteConfig> := [RouteConfig("ADMIN", ADMIN_ROUTE), RouteConfig("USER", USER_ROUTE)]

  function Normalized(roles: seq<string>): (r: seq<string>)
    ensures |r| == |roles| && forall i :: 0 <= i < |r| ==> r[i] == ToUpper(roles[i])
  {
    seq(|roles|, i requires 0 <= i < |roles| => ToUpper(roles[i]))
  }

  /** The path of the first table entry whose role is among `normalized`. */
  function FirstRoute(table: seq<RouteConfig>, normalized: seq<string>): Option<string> {
    if table == [] then None
    else if table[0].role in normalized then Some(table[0].path)
    else FirstRoute(table[1..], normalized)
  }

  function ResolvePostLoginRoute(roles: seq<string>): string {
    FirstRoute(ROLE_ROUTES, Normalized(roles)).GetOr(FALLBACK_ROUTE)
  }

  /** The two table entries, read in order. */
  lemma ResolveCases(roles: seq<string>)
    ensures ResolvePostLoginRoute(roles) ==
      if "ADMIN" in Normalized(roles) then ADMIN_ROUTE
      else if "USER" in Normalized(roles) then USER_ROUTE
      else FALLBACK_ROUTE
  {
    var n := Normalized(roles);
    assert ROLE_ROUTES[0] == RouteConfig("ADMIN", ADMIN_ROUTE);
    assert ROLE_ROUTES[1..] == [RouteConfig("USER", USER_ROUTE)];
    assert ROLE_ROUTES[1..][1..] == [];
    assert FirstRoute(ROLE_ROUTES[1..][1..], n) == None;
    assert FirstRoute(ROLE_ROUTES[1..], n) == if "USER" in n then Some(USER_ROUTE) else None;
  }

  /** A role that upper-cases to `ADMIN`, wherever it stands, leads to the
      dashboard, and only such a role does; every other list, `USER` or no
      known role at all, the empty list included, leads to the home page. */
  lemma ResolveSpec(roles: seq<string>)
    ensures ResolvePostLoginRoute(roles) == ADMIN_ROUTE <==>
      exists i :: 0 <= i < |roles| && ToUpper(roles[i]) == "ADMIN"
    ensures (forall i :: 0 <= i < |roles| ==> ToUpper(roles[i]) != "ADMIN") ==>
      ResolvePostLoginRoute(roles) == USER_ROUTE
    ensures ResolvePostLoginRoute(roles) in {ADMIN_ROUTE, USER_ROUTE}
  {
    ResolveCases(roles);
    var n := Normalized(roles);
    if "ADMIN" in n {
      var i :| 0 <= i < |n| && n[i] == "ADMIN";
    }
    if exists i :: 0 <= i < |roles| && ToUpper(roles[i]) == "ADMIN" {
      var i :| 0 <= i < |roles| && ToUpper(roles[i]) == "ADMIN";
      assert n[i] == "ADMIN";
    }
    assert |ADMIN_ROUTE| != |USER_ROUTE|;
  }

  /** The route depends only on which roles are held, not on their order or
      repetition. */
  lemma ResolveIgnoresOrder(roles: seq<string>, others: seq<string>)
    requires forall x :: x in roles <==> x in others
    ensures ResolvePostLoginRoute(roles) == ResolvePostLoginRoute(others)
  {
    ResolveSpec(roles);
    ResolveSpec(others);
    if exists i :: 0 <= i < |roles| && ToUpper(roles[i]) == "ADMIN" {
      var i :| 0 <= i < |roles| && ToUpper(roles[i]) == "ADMIN";
      assert roles[i] in others;
      var j :| 0 <= j < |others| && others[j] == roles[i];
    }
    if exists j :: 0 <= j < |others| && ToUpper(others[j]) == "ADMIN" {
      var j :| 0 <= j < |others| && ToUpper(others[j]) == "ADMIN";
      assert others[j] in roles;
      var i :| 0 <= i < |roles| && roles[i] == others[j];
    }
  }

  /** Case does not matter, and ADMIN wins over an earlier USER. */
  lemma ResolveExamples()
    ensures ResolvePostLoginRoute(["user", "Admin"]) == ADMIN_ROUTE
    ensures ResolvePostLoginRoute(["uSeR"]) == USER_ROUTE
    ensures ResolvePostLoginRoute([]) == USER_ROUTE
  {
    var up := ToUpper("Admin");
    assert up[0] == 'A' && up[1] == 'D' && up[2] == 'M' && up[3] == 'I' && up[4] == 'N';
    assert up == "ADMIN";
    ResolveSpec(["user", "Admin"]);
    assert ToUpper(["user", "Admin"][1]) == "ADMIN";
    ResolveSpec(["uSeR"]);
    assert |ToUpper("uSeR")| == 4;
    ResolveSpec([]);
  }
}
