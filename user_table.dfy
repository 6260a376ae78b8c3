/** The `user`, `role` and `authProvider` tables as the ORM client presents
    them: a user row with its role memberships included (each membership
    carrying the role and the role's permissions), unique emails, provider
    links unique on `(provider, providerUserId)` and owned by an existing user,
    and the three statements the services issue against them: `findUnique`,
    the nested `user.create`, and `authProvider.upsert`. The roles and their
    permissions are seeded data that the modelled code never changes. */
module UserTable {
  import opened Wrappers
  import opened Permissions

  /** Database keys, allocated by the table. */
  type Id = nat

  datatype Permission = Permission(name: string)
  datatype RolePermission = RolePermission(permission: Permission)
  datatype Role = Role(id: Id, name: string, rolePermissions: seq<RolePermission>)
  datatype UserRole = UserRole(role: Role)

  /** A user row with `userRoles → role → rolePermissions → permission` included. */
  datatype User = User(id: Id, email: string, password: string, isActive: bool, userRoles: seq<UserRole>)

  /** `OAuthProviderLink`: the composite key of an `authProvider` row. */
  datatype ProviderLink = ProviderLink(provider: string, providerUserId: string)

  datatype AuthProvider = AuthProvider(provider: string, providerUserId: string, userId: Id)

  /** What the database refuses: a nested `connect` to a role name that does
      not exist, a unique constraint, or a `connect` to a missing user. */
  datatype StoreError = RoleNotFound(name: string) | UniqueViolation(field: string) | UserNotFound(id: Id)

  function KeyOf(a: AuthProvider): ProviderLink {
    ProviderLink(a.provider, a.providerUserId)
  }

  /** The contents of the `user` and `authProvider` tables at one moment. */
  datatype Tables = Tables(users: seq<User>, links: seq<AuthProvider>)

  /** The database's guarantees: users are never deleted, so a user's id is
      its position; emails are unique; links are unique on their key and
      point at an existing user. */
  ghost predicate TablesValid(t: Tables) {
    && (forall k :: 0 <= k < |t.users| ==> t.users[k].id == k)
    && (forall i, j :: 0 <= i < j < |t.users| ==> t.users[i].email != t.users[j].email)
    && (forall i, j :: 0 <= i < j < |t.links| ==> KeyOf(t.links[i]) != KeyOf(t.links[j]))
    && (forall k :: 0 <= k < |t.links| ==> t.links[k].userId < |t.users|)
  }

  /** `role.rolePermissions.map(rp => rp.permission.name)`. */
  function GrantedNames(role: Role): (names: seq<string>)
    ensures |names| == |role.rolePermissions|
    ensures forall j :: 0 <= j < |names| ==> names[j] == role.rolePermissions[j].permission.name
  {
    seq(|role.rolePermissions|, j requires 0 <= j < |role.rolePermissions| => role.rolePermissions[j].permission.name)
  }

  /** Every permission name of every membership, role after role, in order. */
  function PermissionNames(userRoles: seq<UserRole>): seq<string> {
    if userRoles == [] then []
    else PermissionNames(userRoles[..|userRoles| - 1]) + GrantedNames(userRoles[|userRoles| - 1].role)
  }

  /** A name occurs among the permission names iff some membership's role grants it. */
  lemma {:induction false} PermissionNamesSpec(userRoles: seq<UserRole>, x: string)
    ensures x in PermissionNames(userRoles) <==>
      exists i, j :: 0 <= i < |userRoles| && 0 <= j < |userRoles[i].role.rolePermissions|
                     && userRoles[i].role.rolePermissions[j].permission.name == x
  {
    if userRoles != [] {
      var init := userRoles[..|userRoles| - 1];
      var last := userRoles[|userRoles| - 1];
      PermissionNamesSpec(init, x);
      var own := GrantedNames(last.role);
      assert PermissionNames(userRoles) == PermissionNames(init) + own;
      if x in own {
        var j :| 0 <= j < |own| && own[j] == x;
        assert userRoles[|userRoles| - 1].role.rolePermissions[j].permission.name == x;
      }
      if exists i, j :: 0 <= i < |userRoles| && 0 <= j < |userRoles[i].role.rolePermissions|
                        && userRoles[i].role.rolePermissions[j].permission.name == x {
        var i, j :| 0 <= i < |userRoles| && 0 <= j < |userRoles[i].role.rolePermissions|
                    && userRoles[i].role.rolePermissions[j].permission.name == x;
        if i < |init| {
          assert init[i] == userRoles[i];
        } else {
          assert own[j] == x;
        }
      }
    }
  }

  /** The names granted by the memberships, collected into a `Set`: each
      once, exactly those some role grants, in order of first occurrence. */
  lemma GrantedPermissionsSpec(userRoles: seq<UserRole>)
    ensures NoDuplicates(Distinct(PermissionNames(userRoles)))
    ensures forall x :: x in Distinct(PermissionNames(userRoles)) <==>
      exists i, j :: 0 <= i < |userRoles| && 0 <= j < |userRoles[i].role.rolePermissions|
                     && userRoles[i].role.rolePermissions[j].permission.name == x
    ensures forall x :: x in Distinct(PermissionNames(userRoles)) <==> x in PermissionNames(userRoles)
    ensures var p := Distinct(PermissionNames(userRoles)); var all := PermissionNames(userRoles);
      forall i, j :: 0 <= i < j < |p| ==> FirstIndex(all, p[i]) < FirstIndex(all, p[j])
  {
    DistinctSpec(PermissionNames(userRoles));
    forall x
      ensures x in Distinct(PermissionNames(userRoles)) <==>
        exists i, j :: 0 <= i < |userRoles| && 0 <= j < |userRoles[i].role.rolePermissions|
                       && userRoles[i].role.rolePermissions[j].permission.name == x
    {
      PermissionNamesSpec(userRoles, x);
    }
  }

  // ----- searches ---------------------------------------------------------

  function IndexOfEmail(users: seq<User>, email: string, from: nat): (r: Option<nat>)
    requires from <= |users|
    ensures r.Some? ==> from <= r.value < |users| && users[r.value].email == email
    ensures r.None? ==> forall k :: from <= k < |users| ==> users[k].email != email
    decreases |users| - from
  {
    if from == |users| then None
    else if users[from].email == email then Some(from)
    else IndexOfEmail(users, email, from + 1)
  }

  function IndexOfLink(links: seq<AuthProvider>, link: ProviderLink, from: nat): (r: Option<nat>)
    requires from <= |links|
    ensures r.Some? ==> from <= r.value < |links| && KeyOf(links[r.value]) == link
    ensures r.None? ==> forall k :: from <= k < |links| ==> KeyOf(links[k]) != link
    decreases |links| - from
  {
    if from == |links| then None
    else if KeyOf(links[from]) == link then Some(from)
    else IndexOfLink(links, link, from + 1)
  }

  function RoleNamed(roles: seq<Role>, name: string, from: nat): (r: Option<Role>)
    requires from <= |roles|
    ensures r.Some? ==> r.value in roles && r.value.name == name
    ensures r.None? ==> forall k :: from <= k < |roles| ==> roles[k].name != name
    decreases |roles| - from
  {
    if from == |roles| then None
    else if roles[from].name == name then Some(roles[from])
    else RoleNamed(roles, name, from + 1)
  }

  /** `userRoles: { create: names.map(name => ({ role: { connect: { name } } })) }`:
      one membership per name, in order, or the first name with no role. */
  function ConnectRoles(roles: seq<Role>, names: seq<string>): (r: Result<seq<UserRole>, StoreError>)
    ensures r.Success? ==> |r.value| == |names|
    ensures r.Success? ==> forall k :: 0 <= k < |names| ==> r.value[k].role in roles && r.value[k].role.name == names[k]
    ensures r.Failure? ==> exists k :: (0 <= k < |names| && r.error == RoleNotFound(names[k])
                                        && forall j :: 0 <= j < |roles| ==> roles[j].name != names[k])
  {
    if names == [] then Success([])
    else
      match RoleNamed(roles, names[0], 0)
      case None => Failure(RoleNotFound(names[0]))
      case Some(role) =>
        match ConnectRoles(roles, names[1..])
        case Failure(e) => Failure(e)
        case Success(rest) => Success([UserRole(role)] + rest)
  }

  // ----- the statements, on values ---------------------------------------

  /** `user.findUnique({ where: { id } })`. */
  function UserAt(users: seq<User>, id: Id): Option<User> {
    if id < |users| then Some(users[id]) else None
  }

  /** `user.findUnique({ where: { email } })`. */
  function EmailOwner(users: seq<User>, email: string): (r: Option<User>)
    ensures r.None? <==> forall k :: 0 <= k < |users| ==> users[k].email != email
    ensures r.Some? ==> r.value in users && r.value.email == email
  {
    match IndexOfEmail(users, email, 0)
    case None => None
    case Some(k) => Some(users[k])
  }

  /** `user.findFirst({ where: { authProviders: { some: link } } })`: the
      owner of the link row with that key, if there is one. */
  function LinkOwner(t: Tables, link: ProviderLink): Option<User> {
    match IndexOfLink(t.links, link, 0)
    case None => None
    case Some(k) => UserAt(t.users, t.links[k].userId)
  }

  /** On valid tables the owner of a link is found exactly when a link row
      with that key exists, and is the user that row points at. */
  lemma LinkOwnerSpec(t: Tables, link: ProviderLink)
    requires TablesValid(t)
    ensures LinkOwner(t, link).None? <==> forall k :: 0 <= k < |t.links| ==> KeyOf(t.links[k]) != link
    ensures LinkOwner(t, link).Some? ==>
      && LinkOwner(t, link).value in t.users
      && forall k :: 0 <= k < |t.links| && KeyOf(t.links[k]) == link ==> t.links[k].userId == LinkOwner(t, link).value.id
  {
    match IndexOfLink(t.links, link, 0)
    case None =>
    case Some(i) =>
      forall k | 0 <= k < |t.links| && KeyOf(t.links[k]) == link ensures k == i {
      }
  }

  /** The nested `user.create`: one user row with its memberships (roles
      connected by name) and one provider link, or the database's refusal
      with the tables unchanged. */
  function Created(roles: seq<Role>, t: Tables, email: string, password: string, isActive: bool,
                   roleNames: seq<string>, link: ProviderLink): (Result<User, StoreError>, Tables)
  {
    match ConnectRoles(roles, roleNames)
    case Failure(e) => (Failure(e), t)
    case Success(memberships) =>
      if EmailOwner(t.users, email).Some? then (Failure(UniqueViolation("email")), t)
      else if IndexOfLink(t.links, link, 0).Some? then (Failure(UniqueViolation("provider_providerUserId")), t)
      else
        var user := User(|t.users|, email, password, isActive, memberships);
        (Success(user), Tables(t.users + [user], t.links + [AuthProvider(link.provider, link.providerUserId, user.id)]))
  }

  /** A create is refused exactly for an unknown role name, a taken email or
      a taken link key, and then changes nothing; otherwise it appends one
      user with the next id and one link owned by that user, keeps the tables
      valid, and makes the new user the link's owner. */
  lemma CreatedSpec(roles: seq<Role>, t: Tables, email: string, password: string, isActive: bool,
                    roleNames: seq<string>, link: ProviderLink)
    requires TablesValid(t)
    ensures var (r, t2) := Created(roles, t, email, password, isActive, roleNames, link);
      && TablesValid(t2)
      && (r.Failure? <==>
            || ConnectRoles(roles, roleNames).Failure?
            || EmailOwner(t.users, email).Some?
            || exists k :: 0 <= k < |t.links| && KeyOf(t.links[k]) == link)
      && (r.Failure? ==> t2 == t)
      && (r.Success? ==>
            && r.value == User(|t.users|, email, password, isActive, ConnectRoles(roles, roleNames).value)
            && t2.users == t.users + [r.value]
            && t2.links == t.links + [AuthProvider(link.provider, link.providerUserId, r.value.id)]
            && LinkOwner(t2, link) == Some(r.value))
  {
    var (r, t2) := Created(roles, t, email, password, isActive, roleNames, link);
    if r.Success? {
      assert IndexOfLink(t.links, link, 0).None?;
      assert KeyOf(t2.links[|t.links|]) == link;
      assert IndexOfLink(t2.links, link, 0) == IndexOfLink(t2.links, link, |t.links|) by {
        IndexOfLinkSkip(t2.links, link, 0, |t.links|);
      }
    }
  }

  /** A search that finds nothing before `to` may start at `to`. */
  lemma {:induction false} IndexOfLinkSkip(links: seq<AuthProvider>, link: ProviderLink, from: nat, to: nat)
    requires from <= to <= |links|
    requires forall k :: from <= k < to ==> KeyOf(links[k]) != link
    ensures IndexOfLink(links, link, from) == IndexOfLink(links, link, to)
  {
    if from < to {
      IndexOfLinkSkip(links, link, from, to - 1);
    }
  }

  /** `authProvider.upsert` keyed by the link: an existing row is handed to
      the user, otherwise a row is added; a missing user is refused. */
  function Upserted(t: Tables, userId: Id, link: ProviderLink): (Result<(), StoreError>, Tables) {
    if UserAt(t.users, userId).None? then (Failure(UserNotFound(userId)), t)
    else
      var row := AuthProvider(link.provider, link.providerUserId, userId);
      match IndexOfLink(t.links, link, 0)
      case Some(k) => (Success(()), t.(links := t.links[k := row]))
      case None => (Success(()), t.(links := t.links + [row]))
  }

  /** An upsert is refused exactly for a missing user, and then changes
      nothing; otherwise the one link with that key belongs to the user
      afterwards: an existing link is handed over, otherwise one is added.
      Users and every link with another key are untouched. */
  lemma UpsertedSpec(t: Tables, userId: Id, link: ProviderLink)
    requires TablesValid(t)
    ensures var (r, t2) := Upserted(t, userId, link);
      && TablesValid(t2)
      && t2.users == t.users
      && (r.Failure? <==> userId >= |t.users|)
      && (r.Failure? ==> t2 == t)
      && (r.Success? ==> LinkOwner(t2, link) == Some(t.users[userId]))
      && (r.Success? ==> forall k :: 0 <= k < |t2.links| && KeyOf(t2.links[k]) == link ==> t2.links[k].userId == userId)
      && (r.Success? ==> |t2.links| == |t.links| + (if exists k :: 0 <= k < |t.links| && KeyOf(t.links[k]) == link then 0 else 1))
      && (forall k :: 0 <= k < |t.links| && KeyOf(t.links[k]) != link ==> t2.links[k] == t.links[k])
  {
    var (r, t2) := Upserted(t, userId, link);
    if r.Success? {
      match IndexOfLink(t.links, link, 0)
      case Some(i) =>
        assert KeyOf(t2.links[i]) == link;
      case None =>
        assert KeyOf(t2.links[|t.links|]) == link;
        IndexOfLinkSkip(t2.links, link, 0, |t.links|);
      LinkOwnerSpec(t2, link);
    }
  }

  // ----- the tables -------------------------------------------------------

  /** The mutable tables: `users` and `authProviders` change, the seeded
      roles do not. */
  class UserTable {
    const roles: seq<Role>
    var users: seq<User>
    var authProviders: seq<AuthProvider>

    function State(): Tables
      reads this
    {
      Tables(users, authProviders)
    }

    ghost predicate Valid()
      reads this
    {
      TablesValid(State())
    }

    constructor (roles: seq<Role>)
      ensures Valid() && this.roles == roles && users == [] && authProviders == []
    {
      this.roles := roles;
      users := [];
      authProviders := [];
    }

    /** `user.findUnique({ where: { email } })`. */
    function FindUniqueByEmail(email: string): (r: Option<User>)
      reads this
      ensures r.None? <==> forall k :: 0 <= k < |users| ==> users[k].email != email
      ensures r.Some? ==> r.value in users && r.value.email == email
    {
      EmailOwner(users, email)
    }

    /** `user.findUnique({ where: { id } })`. */
    function FindUniqueById(id: Id): (r: Option<User>)
      reads this
      requires Valid()
      ensures r.None? <==> forall k :: 0 <= k < |users| ==> users[k].id != id
      ensures r.Some? ==> r.value in users && r.value.id == id
    {
      UserAt(users, id)
    }

    /** `user.findFirst({ where: { authProviders: { some: link } } })`. */
    function FindFirstByAuthProvider(link: ProviderLink): (r: Option<User>)
      reads this
      requires Valid()
      ensures r.None? <==> forall k :: 0 <= k < |authProviders| ==> KeyOf(authProviders[k]) != link
      ensures r.Some? ==> r.value in users
      ensures r.Some? ==>
        forall k :: 0 <= k < |authProviders| && KeyOf(authProviders[k]) == link ==> authProviders[k].userId == r.value.id
    {
      LinkOwnerSpec(State(), link);
      LinkOwner(State(), link)
    }

    /** The nested `user.create`, row by row. */
    method Create(email: string, password: string, isActive: bool, roleNames: seq<string>, link: ProviderLink)
      returns (r: Result<User, StoreError>)
      requires Valid()
      modifies this
      ensures Valid()
      ensures (r, State()) == Created(roles, old(State()), email, password, isActive, roleNames, link)
    {
      CreatedSpec(roles, State(), email, password, isActive, roleNames, link);
      var memberships := ConnectRoles(roles, roleNames);
      if memberships.Failure? {
        return Failure(memberships.error);
      }
      if FindUniqueByEmail(email).Some? {
        return Failure(UniqueViolation("email"));
      }
      if IndexOfLink(authProviders, link, 0).Some? {
        return Failure(UniqueViolation("provider_providerUserId"));
      }
      var user := User(|users|, email, password, isActive, memberships.value);
      users := users + [user];
      authProviders := authProviders + [AuthProvider(link.provider, link.providerUserId, user.id)];
      r := Success(user);
    }

    /** `authProvider.upsert` keyed by the link. */
    method Upsert(userId: Id, link: ProviderLink) returns (r: Result<(), StoreError>)
      requires Valid()
      modifies this
      ensures Valid()
      ensures (r, State()) == Upserted(old(State()), userId, link)
    {
      UpsertedSpec(State(), userId, link);
      if FindUniqueById(userId).None? {
        return Failure(UserNotFound(userId));
      }
      var row := AuthProvider(link.provider, link.providerUserId, userId);
      var existing := IndexOfLink(authProviders, link, 0);
      if existing.Some? {
        authProviders := authProviders[existing.value := row];
      } else {
        authProviders := authProviders + [row];
      }
      r := Success(());
    }
  }
}
