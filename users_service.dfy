/** The older `UsersService`: reads of the `user` table with the role
    memberships included, and the two projections the older `AuthService`
    builds its user view from. */
module UsersService {
  import opened Wrappers
  import opened UserTable
  import opened Permissions

  datatype RoleSummary = RoleSummary(id: Id, name: string)

  /** One `{id, name}` per membership, in membership order. */
  function MapRoles(user: User): (r: seq<RoleSummary>)
    ensures |r| == |user.userRoles|
    ensures forall i :: 0 <= i < |r| ==>
      r[i] == RoleSummary(user.userRoles[i].role.id, user.userRoles[i].role.name)
  {
    seq(|user.userRoles|, i requires 0 <= i < |user.userRoles| =>
      RoleSummary(user.userRoles[i].role.id, user.userRoles[i].role.name))
  }

  class UsersService {
    const prisma: UserTable

    constructor (prisma: UserTable)
      ensures this.prisma == prisma
    {
      this.prisma := prisma;
    }

    /** `user.findUnique({ where: { email }, include: ... })`. */
    function FindByEmail(email: string): (r: Option<User>)
      reads prisma
      ensures r.None? <==> forall k :: 0 <= k < |prisma.users| ==> prisma.users[k].email != email
      ensures r.Some? ==> r.value in prisma.users && r.value.email == email
    {
      prisma.FindUniqueByEmail(email)
    }

    /** `user.findUnique({ where: { id }, include: ... })`. */
    function FindById(id: Id): (r: Option<User>)
      reads prisma
      requires prisma.Valid()
      ensures r.None? <==> forall k :: 0 <= k < |prisma.users| ==> prisma.users[k].id != id
      ensures r.Some? ==> r.value in prisma.users && r.value.id == id
    {
      prisma.FindUniqueById(id)
    }

    /** The permission names of all roles collected into a `Set`; what that
        list holds is `GrantedPermissionsSpec`. A user without roles has none. */
    method CollectPermissions(user: User) returns (r: seq<string>)
      ensures r == Distinct(PermissionNames(user.userRoles))
      ensures user.userRoles == [] ==> r == []
    {
      var permissions: seq<string> := [];
      for i := 0 to |user.userRoles|
        invariant permissions == Distinct(PermissionNames(user.userRoles[..i]))
      {
        assert user.userRoles[..i + 1][..i] == user.userRoles[..i];
        permissions := AddAll(permissions, PermissionNames(user.userRoles[..i]), GrantedNames(user.userRoles[i].role));
      }
      assert user.userRoles[..|user.userRoles|] == user.userRoles;
      r := permissions;
    }

    /** `user.findMany({ select: { id, email, isActive } })`: one triple per user. */
    function FindAllBasic(): (r: seq<(Id, string, bool)>)
      reads prisma
      ensures |r| == |prisma.users|
      ensures forall k :: 0 <= k < |r| ==>
        r[k] == (prisma.users[k].id, prisma.users[k].email, prisma.users[k].isActive)
    {
      var users := prisma.users;
      seq(|users|, k requires 0 <= k < |users| => (users[k].id, users[k].email, users[k].isActive))
    }
  }
}
