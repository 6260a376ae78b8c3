/** `PrismaUserRepository`: the user store behind the abstract
    `UserRepository`. Rows become `UserAggregate`s whose permission list is
    every role's permissions merged without duplicates; OAuth users are
    created with default roles and one provider link; linking is an upsert on
    the provider key. */
module PrismaUserRepository {
  import opened Wrappers
  import opened UserTable
  import opened Permissions

  datatype UserRoleModel = UserRoleModel(id: Id, name: string, permissions: seq<string>)

  datatype UserAggregate = UserAggregate(
    id: Id,
    email: string,
    passwordHash: string,
    isActive: bool,
    roles: seq<UserRoleModel>,
    permissions: seq<string>)

  datatype UserSummary = UserSummary(id: Id, email: string, isActive: bool)

  datatype CreateOAuthUserInput = CreateOAuthUserInput(
    email: string,
    provider: string,
    providerUserId: string,
    roles: Option<seq<string>>,
    isActive: Option<bool>)

  /** `{ id: role.id, name: role.name, permissions: role.rolePermissions.map(rp => rp.permission.name) }`. */
  function RoleModel(m: UserRole): UserRoleModel {
    UserRoleModel(m.role.id, m.role.name, GrantedNames(m.role))
  }

  function RoleModels(userRoles: seq<UserRole>): seq<UserRoleModel> {
    seq(|userRoles|, i requires 0 <= i < |userRoles| => RoleModel(userRoles[i]))
  }

  /** The role models' permission lists, one after another. */
  function ModelPermissions(roles: seq<UserRoleModel>): seq<string> {
    if roles == [] then [] else ModelPermissions(roles[..|roles| - 1]) + roles[|roles| - 1].permissions
  }

  lemma {:induction false} ModelPermissionsOfRows(userRoles: seq<UserRole>)
    ensures ModelPermissions(RoleModels(userRoles)) == PermissionNames(userRoles)
  {
    if userRoles != [] {
      var init := userRoles[..|userRoles| - 1];
      assert RoleModels(userRoles)[..|userRoles| - 1] == RoleModels(init);
      ModelPermissionsOfRows(init);
    }
  }

  /** The aggregate that `toAggregate` builds from a row. */
  function Aggregate(user: User): UserAggregate {
    UserAggregate(user.id, user.email, user.password, user.isActive,
      RoleModels(user.userRoles), Distinct(PermissionNames(user.userRoles)))
  }

  /** The aggregate keeps the row's scalar fields and, in role order, each
      role's id, name and own permission names. */
  lemma AggregateRoles(user: User)
    ensures var a := Aggregate(user);
      && a.id == user.id && a.email == user.email && a.passwordHash == user.password && a.isActive == user.isActive
      && |a.roles| == |user.userRoles|
      && (forall i :: 0 <= i < |a.roles| ==>
            && a.roles[i].id == user.userRoles[i].role.id
            && a.roles[i].name == user.userRoles[i].role.name
            && |a.roles[i].permissions| == |user.userRoles[i].role.rolePermissions|
            && (forall j :: 0 <= j < |a.roles[i].permissions| ==>
                 a.roles[i].permissions[j] == user.userRoles[i].role.rolePermissions[j].permission.name))
  {
  }

  /** The aggregate's permission list is duplicate-free, holds exactly the
      names some role grants, and lists them in order of first appearance. */
  lemma AggregatePermissions(user: User)
    ensures NoDuplicates(Aggregate(user).permissions)
    ensures forall x :: x in Aggregate(user).permissions <==>
      exists i, j :: 0 <= i < |user.userRoles| && 0 <= j < |user.userRoles[i].role.rolePermissions|
                     && user.userRoles[i].role.rolePermissions[j].permission.name == x
    ensures forall x :: x in Aggregate(user).permissions <==> x in PermissionNames(user.userRoles)
    ensures var p := Aggregate(user).permissions; var all := PermissionNames(user.userRoles);
      forall i, j :: 0 <= i < j < |p| ==> FirstIndex(all, p[i]) < FirstIndex(all, p[j])
  {
    assert Aggregate(user).permissions == Distinct(PermissionNames(user.userRoles));
    GrantedPermissionsSpec(user.userRoles);
  }

  /** `toAggregate`: the role list by `map`, the permission list by adding
      every role's permissions to a `Set` in two nested loops. */
  method ToAggregate(user: User) returns (a: UserAggregate)
    ensures a == Aggregate(user)
  {
    var roles := RoleModels(user.userRoles);
    var permissions: seq<string> := [];
    for i := 0 to |roles|
      invariant permissions == Distinct(ModelPermissions(roles[..i]))
    {
      assert roles[..i + 1][..i] == roles[..i];
      permissions := AddAll(permissions, ModelPermissions(roles[..i]), roles[i].permissions);
    }
    assert roles[..|roles|] == roles;
    ModelPermissionsOfRows(user.userRoles);
    a := UserAggregate(user.id, user.email, user.password, user.isActive, roles, permissions);
  }

  /** `input.roles && input.roles.length > 0 ? input.roles : ['USER']`. */
  function OAuthUserRoles(roles: Option<seq<string>>): (names: seq<string>)
    ensures roles.None? || roles == Some([]) ==> names == ["USER"]
    ensures roles.Some? && roles.value != [] ==> names == roles.value
  {
    if roles.Some? && |roles.value| > 0 then roles.value else ["USER"]
  }

  /** `createOAuthUser` on valid tables: a new user with the given email,
      `isActive ?? true`, one membership per given role name or the single
      role `USER` when none are given, and exactly one provider link; or the
      database's refusal, with nothing changed. */
  lemma OAuthUserDefaults(roles: seq<Role>, t: Tables, input: CreateOAuthUserInput, passwordHash: string)
    requires TablesValid(t)
    ensures var (r, t2) := Created(roles, t, input.email, passwordHash, input.isActive.GetOr(true),
                                   OAuthUserRoles(input.roles), ProviderLink(input.provider, input.providerUserId));
      && TablesValid(t2)
      && (r.Failure? ==> t2 == t)
      && (r.Success? ==>
            && r.value.id == |t.users| && r.value.email == input.email && r.value.password == passwordHash
            && r.value.isActive == (input.isActive != Some(false))
            && (input.roles.None? || input.roles == Some([]) ==>
                  |r.value.userRoles| == 1 && r.value.userRoles[0].role.name == "USER")
            && (input.roles.Some? && input.roles.value != [] ==>
                  && |r.value.userRoles| == |input.roles.value|
                  && forall k :: 0 <= k < |r.value.userRoles| ==> r.value.userRoles[k].role.name == input.roles.value[k])
            && t2.users == t.users + [r.value]
            && t2.links == t.links + [AuthProvider(input.provider, input.providerUserId, r.value.id)])
  {
    CreatedSpec(roles, t, input.email, passwordHash, input.isActive.GetOr(true),
                OAuthUserRoles(input.roles), ProviderLink(input.provider, input.providerUserId));
  }

  function AggregateOf(user: Option<User>): Option<UserAggregate> {
    match user
    case None => None
    case Some(u) => Some(Aggregate(u))
  }

  class PrismaUserRepository {
    const prisma: UserTable

    constructor (prisma: UserTable)
      ensures this.prisma == prisma
    {
      this.prisma := prisma;
    }

    /** Exact-match lookup by email: `null` when no user has it. */
    method FindByEmail(email: string) returns (r: Option<UserAggregate>)
      ensures r.None? <==> forall k :: 0 <= k < |prisma.users| ==> prisma.users[k].email != email
      ensures r.Some? ==> exists k :: 0 <= k < |prisma.users| && prisma.users[k].email == email
                                      && r.value == Aggregate(prisma.users[k])
      ensures r == AggregateOf(EmailOwner(prisma.users, email))
    {
      var user := prisma.FindUniqueByEmail(email);
      if user.None? {
        return None;
      }
      var agg := ToAggregate(user.value);
      return Some(agg);
    }

    /** Exact-match lookup by id: `null` when no user has it. */
    method FindById(id: Id) returns (r: Option<UserAggregate>)
      requires prisma.Valid()
      ensures r.None? <==> forall k :: 0 <= k < |prisma.users| ==> prisma.users[k].id != id
      ensures r.Some? ==> exists k :: 0 <= k < |prisma.users| && prisma.users[k].id == id
                                      && r.value == Aggregate(prisma.users[k])
      ensures r == AggregateOf(UserAt(prisma.users, id))
    {
      var user := prisma.FindUniqueById(id);
      if user.None? {
        return None;
      }
      var agg := ToAggregate(user.value);
      return Some(agg);
    }

    /** The owner of the link whose provider and provider user id are the
        given ones, or `null` when there is no such link. */
    method FindByAuthProvider(link: ProviderLink) returns (r: Option<UserAggregate>)
      requires prisma.Valid()
      ensures r.None? <==> forall k :: 0 <= k < |prisma.authProviders| ==> KeyOf(prisma.authProviders[k]) != link
      ensures r.Some? ==>
        exists u :: 0 <= u < |prisma.users| && r.value == Aggregate(prisma.users[u])
          && (exists k :: 0 <= k < |prisma.authProviders| && KeyOf(prisma.authProviders[k]) == link)
          && forall k :: 0 <= k < |prisma.authProviders| && KeyOf(prisma.authProviders[k]) == link ==>
               prisma.authProviders[k].userId == prisma.users[u].id
      ensures r == AggregateOf(LinkOwner(prisma.State(), link))
    {
      var user := prisma.FindFirstByAuthProvider(link);
      if user.None? {
        return None;
      }
      var agg := ToAggregate(user.value);
      return Some(agg);
    }

    /** The `authProvider` upsert keyed by the link; what it leaves behind
        is `UpsertedSpec`. */
    method LinkAuthProvider(userId: Id, link: ProviderLink) returns (r: Result<(), StoreError>)
      requires prisma.Valid()
      modifies prisma
      ensures prisma.Valid()
      ensures (r, prisma.State()) == Upserted(old(prisma.State()), userId, link)
    {
      r := prisma.Upsert(userId, link);
    }

    /** The nested create with the OAuth defaults, read back as an
        aggregate; what it leaves behind is `OAuthUserDefaults`. */
    method CreateOAuthUser(input: CreateOAuthUserInput, passwordHash: string) returns (r: Result<UserAggregate, StoreError>)
      requires prisma.Valid()
      modifies prisma
      ensures prisma.Valid()
      ensures var (created, after) := Created(prisma.roles, old(prisma.State()), input.email, passwordHash,
                                              input.isActive.GetOr(true), OAuthUserRoles(input.roles),
                                              ProviderLink(input.provider, input.providerUserId));
        && prisma.State() == after
        && r == (match created case Success(u) => Success(Aggregate(u)) case Failure(e) => Failure(e))
    {
      var roles := OAuthUserRoles(input.roles);
      var link := ProviderLink(input.provider, input.providerUserId);
      var created := prisma.Create(input.email, passwordHash, input.isActive.GetOr(true), roles, link);
      if created.Failure? {
        return Failure(created.error);
      }
      var agg := ToAggregate(created.value);
      return Success(agg);
    }

    /** One `{id, email, isActive}` per user, in table order. */
    function FindAllSummaries(): (r: seq<UserSummary>)
      reads prisma
      ensures |r| == |prisma.users|
      ensures forall k :: 0 <= k < |r| ==>
        r[k] == UserSummary(prisma.users[k].id, prisma.users[k].email, prisma.users[k].isActive)
    {
      var users := prisma.users;
      seq(|users|, k requires 0 <= k < |users| => UserSummary(users[k].id, users[k].email, users[k].isActive))
    }
  }
}
