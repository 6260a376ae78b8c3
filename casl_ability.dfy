/** `CaslAbilityFactory.createForUser`: the permission names of a user
    become CASL rules, one fixed rule per known name, added to an ability
    builder in a fixed order. */
module CaslAbility {
  import opened Session

  datatype Action = Manage | Create | Read | Update | Delete
  datatype Subject = UserSubject | RoleSubject | PermissionSubject | AllSubjects
  datatype Rule = Rule(action: Action, subject: Subject)
  datatype Ability = Ability(rules: seq<Rule>)

  /** The six checks of `createForUser`, in order: the permission name and
      the rule it grants. */
  const GRANTS: seq<(string, Rule)> := [
    ("USER_CREATE", Rule(Create, UserSubject)),
    ("USER_READ", Rule(Read, UserSubject)),
    ("USER_UPDATE", Rule(Update, UserSubject)),
    ("USER_DELETE", Rule(Delete, UserSubject)),
    ("ROLE_MANAGE", Rule(Manage, RoleSubject)),
    ("PERMISSION_MANAGE", Rule(Manage, PermissionSubject))]

  /** The rules of `grants`, in order, whose names `permissions` holds. */
  function Granted(permissions: seq<string>, grants: seq<(string, Rule)>): seq<Rule> {
    if grants == [] then []
    else Granted(permissions, grants[..|grants| - 1])
         + (if grants[|grants| - 1].0 in permissions then [grants[|grants| - 1].1] else [])
  }

  /** The rules a permission list grants. */
  function RulesFor(permissions: seq<string>): seq<Rule> {
    Granted(permissions, GRANTS)
  }

  /** CASL's reading of a rule list without conditions or fields: a rule
      for the subject, or for `all`, with the action or `manage`. */
  predicate Allows(ability: Ability, action: Action, subject: Subject) {
    exists k :: 0 <= k < |ability.rules| &&
      (ability.rules[k].action == action || ability.rules[k].action == Manage) &&
      (ability.rules[k].subject == subject || ability.rules[k].subject == AllSubjects)
  }

  lemma {:induction false} GrantedSpec(permissions: seq<string>, grants: seq<(string, Rule)>)
    ensures forall r :: r in Granted(permissions, grants) <==>
      exists k :: 0 <= k < |grants| && grants[k].1 == r && grants[k].0 in permissions
  {
    if grants != [] {
      var init := grants[..|grants| - 1];
      GrantedSpec(permissions, init);
      forall r | r in Granted(permissions, grants)
        ensures exists k :: 0 <= k < |grants| && grants[k].1 == r && grants[k].0 in permissions
      {
        if r in Granted(permissions, init) {
          var k :| 0 <= k < |init| && init[k].1 == r && init[k].0 in permissions;
          assert grants[k] == init[k];
        }
      }
      forall r | exists k :: 0 <= k < |grants| && grants[k].1 == r && grants[k].0 in permissions
        ensures r in Granted(permissions, grants)
      {
        var k :| 0 <= k < |grants| && grants[k].1 == r && grants[k].0 in permissions;
        if k < |init| {
          assert init[k] == grants[k];
        }
      }
    }
  }

  /** A rule is granted exactly when the permission list holds the name the
      table pairs it with. */
  lemma RulesForSpec(permissions: seq<string>)
    ensures forall r :: r in RulesFor(permissions) <==>
      exists k :: 0 <= k < |GRANTS| && GRANTS[k].1 == r && GRANTS[k].0 in permissions
  {
    GrantedSpec(permissions, GRANTS);
  }

  /** Each of the six names grants its one rule, and nothing else grants it. */
  lemma SixGrants(permissions: seq<string>)
    ensures Rule(Create, UserSubject) in RulesFor(permissions) <==> "USER_CREATE" in permissions
    ensures Rule(Read, UserSubject) in RulesFor(permissions) <==> "USER_READ" in permissions
    ensures Rule(Update, UserSubject) in RulesFor(permissions) <==> "USER_UPDATE" in permissions
    ensures Rule(Delete, UserSubject) in RulesFor(permissions) <==> "USER_DELETE" in permissions
    ensures Rule(Manage, RoleSubject) in RulesFor(permissions) <==> "ROLE_MANAGE" in permissions
    ensures Rule(Manage, PermissionSubject) in RulesFor(permissions) <==> "PERMISSION_MANAGE" in permissions
    ensures forall r :: r in RulesFor(permissions) ==> r.subject != AllSubjects
  {
    RulesForSpec(permissions);
    assert GRANTS[0].0 == "USER_CREATE" && GRANTS[1].0 == "USER_READ" && GRANTS[2].0 == "USER_UPDATE";
    assert GRANTS[3].0 == "USER_DELETE" && GRANTS[4].0 == "ROLE_MANAGE" && GRANTS[5].0 == "PERMISSION_MANAGE";
  }

  lemma {:induction false} GrantedByNames(p: seq<string>, q: seq<string>, grants: seq<(string, Rule)>)
    requires forall k :: 0 <= k < |grants| ==> (grants[k].0 in p <==> grants[k].0 in q)
    ensures Granted(p, grants) == Granted(q, grants)
  {
    if grants != [] {
      var init := grants[..|grants| - 1];
      forall k | 0 <= k < |init| ensures init[k].0 in p <==> init[k].0 in q {
        assert init[k] == grants[k];
      }
      GrantedByNames(p, q, init);
    }
  }

  /** The rules depend only on which of the six names are present: order,
      duplicates and names outside the six change nothing. */
  lemma RulesForByNames(p: seq<string>, q: seq<string>)
    requires forall k :: 0 <= k < |GRANTS| ==> (GRANTS[k].0 in p <==> GRANTS[k].0 in q)
    ensures RulesFor(p) == RulesFor(q)
  {
    GrantedByNames(p, q, GRANTS);
  }

  /** Names outside the six add no rule, and a repeated name no extra one. */
  lemma UnknownAndDuplicateNames(p: seq<string>, x: string)
    ensures (forall k :: 0 <= k < |GRANTS| ==> GRANTS[k].0 != x) ==> RulesFor(p + [x]) == RulesFor(p)
    ensures x in p ==> RulesFor(p + [x]) == RulesFor(p)
  {
    if (forall k :: 0 <= k < |GRANTS| ==> GRANTS[k].0 != x) || x in p {
      RulesForByNames(p + [x], p);
    }
  }

  /** More permissions never give fewer rules, nor allow less. */
  lemma RulesForMonotone(p: seq<string>, q: seq<string>)
    requires forall x :: x in p ==> x in q
    ensures forall r :: r in RulesFor(p) ==> r in RulesFor(q)
    ensures forall a, s :: Allows(Ability(RulesFor(p)), a, s) ==> Allows(Ability(RulesFor(q)), a, s)
  {
    RulesForSpec(p);
    RulesForSpec(q);
    forall r | r in RulesFor(p) ensures r in RulesFor(q) {
      var j :| 0 <= j < |GRANTS| && GRANTS[j].1 == r && GRANTS[j].0 in p;
    }
    forall a, s | Allows(Ability(RulesFor(p)), a, s) ensures Allows(Ability(RulesFor(q)), a, s) {
      var rp := RulesFor(p);
      var k :| 0 <= k < |rp| && (rp[k].action == a || rp[k].action == Manage) &&
               (rp[k].subject == s || rp[k].subject == AllSubjects);
      assert rp[k] in rp;
      var rq := RulesFor(q);
      var i :| 0 <= i < |rq| && rq[i] == rp[k];
    }
  }

  lemma {:induction false} GrantedNothing(grants: seq<(string, Rule)>)
    ensures Granted([], grants) == []
  {
    if grants != [] {
      GrantedNothing(grants[..|grants| - 1]);
    }
  }

  /** Without permissions there are no rules, so reading users, the check
      of `GET /users`, is refused; and that check passes exactly for a user
      holding `USER_READ`. */
  lemma UsersReadCheck(permissions: seq<string>)
    ensures RulesFor([]) == []
    ensures !Allows(Ability(RulesFor([])), Read, UserSubject)
    ensures Allows(Ability(RulesFor(permissions)), Read, UserSubject) <==> "USER_READ" in permissions
  {
    GrantedNothing(GRANTS);
    SixGrants(permissions);
    RulesForSpec(permissions);
    var rules := RulesFor(permissions);
    if Allows(Ability(rules), Read, UserSubject) {
      var k :| 0 <= k < |rules| && (rules[k].action == Read || rules[k].action == Manage) &&
               (rules[k].subject == UserSubject || rules[k].subject == AllSubjects);
      assert rules[k] in rules;
    }
  }

  /** CASL's `AbilityBuilder`: `can` appends a rule, `build` freezes them. */
  class AbilityBuilder {
    var rules: seq<Rule>

    constructor ()
      ensures rules == []
    {
      rules := [];
    }

    method Can(action: Action, subject: Subject)
      modifies this
      ensures rules == old(rules) + [Rule(action, subject)]
    {
      rules := rules + [Rule(action, subject)];
    }

    function Build(): Ability
      reads this
    {
      Ability(rules)
    }
  }

  class CaslAbilityFactory {
    constructor ()
    {
    }

    /** `createForUser`: one `can` per known permission name the user holds,
        in the order of the six checks. */
    method CreateForUser(user: AuthenticatedUser) returns (ability: Ability)
      ensures ability == Ability(RulesFor(user.permissions))
    {
      var builder := new AbilityBuilder();
      var permissionSet := set x | x in user.permissions;
      if "USER_CREATE" in permissionSet {
        builder.Can(Create, UserSubject);
      }
      assert builder.rules == Granted(user.permissions, GRANTS[..1]);
      if "USER_READ" in permissionSet {
        builder.Can(Read, UserSubject);
      }
      assert GRANTS[..2][..1] == GRANTS[..1];
      assert builder.rules == Granted(user.permissions, GRANTS[..2]);
      if "USER_UPDATE" in permissionSet {
        builder.Can(Update, UserSubject);
      }
      assert GRANTS[..3][..2] == GRANTS[..2];
      assert builder.rules == Granted(user.permissions, GRANTS[..3]);
      if "USER_DELETE" in permissionSet {
        builder.Can(Delete, UserSubject);
      }
      assert GRANTS[..4][..3] == GRANTS[..3];
      assert builder.rules == Granted(user.permissions, GRANTS[..4]);
      if "ROLE_MANAGE" in permissionSet {
        builder.Can(Manage, RoleSubject);
      }
      assert GRANTS[..5][..4] == GRANTS[..4];
      assert builder.rules == Granted(user.permissions, GRANTS[..5]);
      if "PERMISSION_MANAGE" in permissionSet {
        builder.Can(Manage, PermissionSubject);
      }
      assert GRANTS[..6][..5] == GRANTS[..5];
      assert GRANTS[..6] == GRANTS;
      ability := builder.Build();
    }
  }
}
