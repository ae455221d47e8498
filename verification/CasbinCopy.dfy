/**
 Revision a1b2c3d4e5f7: grants and role assignments move into `casbin_rule`, and back.

 A permission code is split at its last dot into object and action; the downgrade joins the two
 with a dot again.
 */
module CasbinCopy {
  import opened Collections
  import opened Decimals
  import opened RoleFlattening

  const SUPER_ADMIN: string := "SUPER_ADMIN"
  const LEGACY_SUPER_ADMIN: string := "PLATFORM_ADMIN"

  // ---------------------------------------------------------------------------------------
  // Splitting and rejoining one code
  // ---------------------------------------------------------------------------------------

  /** `_split`, by `rpartition(".")` */
  function Split(code: string): (string, string) {
    if '.' !in code then (code, "")
    else if code[|code| - 1] == '.' then (code[..|code| - 1], "")
    else
      var (obj, act) := Split(code[..|code| - 1]);
      (obj, act + [code[|code| - 1]])
  }

  function Rejoin(obj: string, act: string): string {
    obj + "." + act
  }

  /** The code comes back exactly when it has a dot; without one a dot is added. */
  lemma {:induction false} RejoinsIff(code: string)
    ensures Rejoin(Split(code).0, Split(code).1) == code <==> '.' in code
    ensures '.' !in Split(code).1
  {
    var (obj, act) := Split(code);
    if '.' in code {
      var n := |code| - 1;
      assert code == code[..n] + [code[n]];
      if code[n] != '.' {
        RejoinsIff(code[..n]);
        assert Rejoin(obj, act) == Rejoin(obj, Split(code[..n]).1) + [code[n]];
      }
    } else {
      assert Rejoin(obj, act)[|obj|] == '.';
    }
  }

  /** Without a dot the code is the object, and the action is empty. */
  lemma SplitUndotted(code: string)
    requires '.' !in code
    ensures Split(code) == (code, "")
  {
  }

  /** The dot inserted by joining is the one the split finds again. */
  lemma {:induction false} SplitOfRejoin(obj: string, act: string)
    requires '.' !in act
    ensures Split(Rejoin(obj, act)) == (obj, act)
  {
    var code := Rejoin(obj, act);
    assert code[|obj|] == '.';
    if act != [] {
      var n := |act| - 1;
      assert code[..|code| - 1] == Rejoin(obj, act[..n]);
      assert act == act[..n] + [act[n]];
      SplitOfRejoin(obj, act[..n]);
    } else {
      assert code[..|code| - 1] == obj;
    }
  }

  // ---------------------------------------------------------------------------------------
  // Grants
  // ---------------------------------------------------------------------------------------

  type Codes = map<nat, string>

  /** `uq_roles_code` and `uq_permissions_code` */
  predicate UniqueCodes(codes: Codes) {
    forall i, j :: i in codes && j in codes && codes[i] == codes[j] ==> i == j
  }

  predicate Refers(grants: set<(nat, nat)>, roles: Codes, permissions: Codes) {
    forall g :: g in grants ==> g.0 in roles && g.1 in permissions
  }

  function Copy(g: (nat, nat), roles: Codes, permissions: Codes): Rule
    requires g.0 in roles && g.1 in permissions
  {
    Grant(Subject(roles[g.0]), Split(permissions[g.1]).0, Split(permissions[g.1]).1)
  }

  const Wildcard: Rule := Grant(Subject(SUPER_ADMIN), "*", "*")

  function Copied(grants: set<(nat, nat)>, roles: Codes, permissions: Codes): set<Rule>
    requires Refers(grants, roles, permissions)
  {
    set g | g in grants :: Copy(g, roles, permissions)
  }

  function CopiedGrants(grants: set<(nat, nat)>, roles: Codes, permissions: Codes): set<Rule>
    requires Refers(grants, roles, permissions)
  {
    Copied(grants, roles, permissions) + {Wildcard}
  }

  /** What the downgrade makes of one `p` row: the row names this role and this permission. */
  predicate Restores(x: Rule, role: string, permission: string) {
    x.Grant? && x.subject == Subject(role) && x.obj != "*" && Rejoin(x.obj, x.act) == permission
  }

  function RestoredGrants(table: set<Rule>, roles: Codes, permissions: Codes): set<(nat, nat)> {
    set x, r, p | x in table && r in roles && p in permissions && Restores(x, roles[r], permissions[p]) :: (r, p)
  }

  /** The codes that survive: dotted, and not on the wildcard object. */
  predicate Survives(code: string) {
    '.' in code && Split(code).0 != "*"
  }

  lemma RestoredFrom(x: Rule, g: (nat, nat), roles: Codes, permissions: Codes, r: nat, p: nat)
    requires UniqueCodes(roles) && r in roles && p in permissions && g.0 in roles && g.1 in permissions
    requires x == Copy(g, roles, permissions) && Restores(x, roles[r], permissions[p])
    ensures g.0 == r && Survives(permissions[p])
    ensures '.' in permissions[g.1] ==> permissions[g.1] == permissions[p]
  {
    SubjectInjective(roles[g.0], roles[r]);
    RejoinsIff(permissions[g.1]);
    SplitOfRejoin(x.obj, x.act);
    assert permissions[p][|x.obj|] == '.';
  }

  lemma RestoredByItself(g: (nat, nat), roles: Codes, permissions: Codes)
    requires g.0 in roles && g.1 in permissions && Survives(permissions[g.1])
    ensures Restores(Copy(g, roles, permissions), roles[g.0], permissions[g.1])
  {
    RejoinsIff(permissions[g.1]);
  }

  /**
   Main result: upgrade then downgrade gives back exactly the grants it started from if and only
   if every granted code is dotted and not on the wildcard object.
   */
  lemma GrantsSurviveIff(grants: set<(nat, nat)>, roles: Codes, permissions: Codes)
    requires UniqueCodes(roles) && UniqueCodes(permissions) && Refers(grants, roles, permissions)
    ensures RestoredGrants(CopiedGrants(grants, roles, permissions), roles, permissions) == grants <==>
            forall g :: g in grants ==> Survives(permissions[g.1])
  {
    var table := CopiedGrants(grants, roles, permissions);
    var restored := RestoredGrants(table, roles, permissions);
    forall g | g in restored
      ensures Survives(permissions[g.1])
      ensures (forall h :: h in grants ==> Survives(permissions[h.1])) ==> g in grants
    {
      var from := CopiedFrom(grants, roles, permissions, g);
      RestoredFrom(Copy(from, roles, permissions), from, roles, permissions, g.0, g.1);
    }
    forall g | g in grants && Survives(permissions[g.1])
      ensures g in restored
    {
      RestoredByItself(g, roles, permissions);
      assert Copy(g, roles, permissions) in table;
      assert (g.0, g.1) == g;
    }
  }

  lemma CopiedFrom(grants: set<(nat, nat)>, roles: Codes, permissions: Codes, g: (nat, nat))
    returns (from: (nat, nat))
    requires Refers(grants, roles, permissions)
    requires g in RestoredGrants(CopiedGrants(grants, roles, permissions), roles, permissions)
    ensures from in grants && Restores(Copy(from, roles, permissions), roles[g.0], permissions[g.1])
  {
    var x :| x in CopiedGrants(grants, roles, permissions) && Restores(x, roles[g.0], permissions[g.1]);
    from :| from in grants && x == Copy(from, roles, permissions);
  }

  // ---------------------------------------------------------------------------------------
  // Assignments
  // ---------------------------------------------------------------------------------------

  function UserSubject(user: nat): string {
    USER + Digits(user)
  }

  lemma UserSubjectInjective(a: nat, b: nat)
    requires UserSubject(a) == UserSubject(b)
    ensures a == b
  {
    assert UserSubject(a)[|USER|..] == Digits(a) && UserSubject(b)[|USER|..] == Digits(b);
    ValueOfDigits(a);
    ValueOfDigits(b);
  }

  /** Pairs (user, role). */
  predicate AssignsKnownRoles(assignments: set<(nat, nat)>, roles: Codes) {
    forall a :: a in assignments ==> a.1 in roles
  }

  function Assignment(a: (nat, nat), roles: Codes): Rule
    requires a.1 in roles
  {
    Link(UserSubject(a.0), Subject(roles[a.1]))
  }

  function CopiedAssignments(assignments: set<(nat, nat)>, roles: Codes): set<Rule>
    requires AssignsKnownRoles(assignments, roles)
  {
    set a | a in assignments :: Assignment(a, roles)
  }

  /** What the downgrade makes of one `g` row: `int(v0[5:])` and the role named by `v1[5:]`. */
  ghost predicate Reassigns(x: Rule, user: nat, role: string) {
    x.Link? && USER <= x.member && AllDigits(x.member[|USER|..]) && Value(x.member[|USER|..]) == user && x.role == Subject(role)
  }

  /** The downgrade inserts for a user exactly the roles the user had before the upgrade. */
  lemma AssignmentsSurvive(assignments: set<(nat, nat)>, roles: Codes, grants: set<(nat, nat)>, permissions: Codes, user: nat, role: nat)
    requires UniqueCodes(roles) && AssignsKnownRoles(assignments, roles) && Refers(grants, roles, permissions) && role in roles
    ensures (exists x :: x in CopiedGrants(grants, roles, permissions) + CopiedAssignments(assignments, roles) && Reassigns(x, user, roles[role]))
            <==> (user, role) in assignments
  {
    if (user, role) in assignments {
      var x := Assignment((user, role), roles);
      assert x in CopiedAssignments(assignments, roles);
      assert x.member[|USER|..] == Digits(user);
      ValueOfDigits(user);
      assert Reassigns(x, user, roles[role]);
    }
    forall a | a in assignments && Reassigns(Assignment(a, roles), user, roles[role])
      ensures a == (user, role)
    {
      assert UserSubject(a.0)[|USER|..] == Digits(a.0);
      ValueOfDigits(a.0);
      SubjectInjective(roles[a.1], roles[role]);
    }
  }

  // ---------------------------------------------------------------------------------------
  // The upgrade's loops
  // ---------------------------------------------------------------------------------------

  /** One `_insert` for each grant. */
  method CopyGrants(table: CasbinTable, grants: set<(nat, nat)>, roles: Codes, permissions: Codes)
    requires Refers(grants, roles, permissions)
    modifies table
    ensures table.rules == old(table.rules) + Copied(grants, roles, permissions)
  {
    var todo := grants;
    while todo != {}
      invariant todo <= grants
      invariant table.rules == old(table.rules) + Copied(grants - todo, roles, permissions)
    {
      var g := Take(todo);
      table.Insert(Copy(g, roles, permissions));
      assert grants - (todo - {g}) == (grants - todo) + {g};
      todo := todo - {g};
    }
    assert grants - todo == grants;
  }

  /** One `_insert` for each assignment. */
  method CopyAssignments(table: CasbinTable, assignments: set<(nat, nat)>, roles: Codes)
    requires AssignsKnownRoles(assignments, roles)
    modifies table
    ensures table.rules == old(table.rules) + CopiedAssignments(assignments, roles)
  {
    var todo := assignments;
    while todo != {}
      invariant todo <= assignments
      invariant table.rules == old(table.rules) + CopiedAssignments(assignments - todo, roles)
    {
      var a := Take(todo);
      table.Insert(Assignment(a, roles));
      assert assignments - (todo - {a}) == (assignments - todo) + {a};
      todo := todo - {a};
    }
    assert assignments - todo == assignments;
  }

  /** The copying part of the upgrade, into the table it has just created. */
  method FillTable(grants: set<(nat, nat)>, assignments: set<(nat, nat)>, roles: Codes, permissions: Codes)
    returns (table: CasbinTable)
    requires Refers(grants, roles, permissions) && AssignsKnownRoles(assignments, roles)
    ensures fresh(table)
    ensures table.rules == CopiedGrants(grants, roles, permissions) + CopiedAssignments(assignments, roles)
  {
    table := new CasbinTable();
    CopyGrants(table, grants, roles, permissions);
    CopyAssignments(table, assignments, roles);
    table.Insert(Wildcard);
  }
}
