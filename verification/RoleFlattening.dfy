/**
 Revision b4c5d6e7f8a9: role inheritance is replaced by direct grants.

 Rows of `casbin_rule` are grants `p, subject, obj, act` and links `g, member, role`. Subjects
 are `role:<code>` or `user:<id>`. The migration records one parent per child role, copies that
 parent's grants onto the child, and deletes all links between roles.
 */
module RoleFlattening {
  import opened Wrappers

  datatype Rule =
    | Grant(subject: string, obj: string, act: string)
    | Link(member: string, role: string)

  const ROLE: string := "role:"

  /** `v0 LIKE 'role:%'` */
  predicate IsRole(s: string) {
    ROLE <= s
  }

  function Subject(code: string): string {
    ROLE + code
  }

  /** `s.split(":", 1)[1]` */
  function AfterColon(s: string): string {
    if s == [] then [] else if s[0] == ':' then s[1..] else AfterColon(s[1..])
  }

  lemma AfterColonOfSubject(code: string)
    ensures AfterColon(Subject(code)) == code
  {
    var s := Subject(code);
    assert s[1..] == "ole:" + code && s[2..] == "le:" + code && s[3..] == "e:" + code && s[4..] == ":" + code;
    assert s[1..][1..] == s[2..] && s[2..][1..] == s[3..] && s[3..][1..] == s[4..] && s[4..][1..] == code;
    assert AfterColon(s[4..]) == code;
    assert AfterColon(s[2..]) == AfterColon(s[3..]);
  }

  lemma SubjectInjective(a: string, b: string)
    requires Subject(a) == Subject(b)
    ensures a == b
  {
    assert Subject(a)[|ROLE|..] == a && Subject(b)[|ROLE|..] == b;
  }

  /** A role code as it should be: it does not itself start with `role:`. */
  predicate PlainCode(code: string) {
    !IsRole(code)
  }

  ghost predicate PlainRole(s: string) {
    exists c :: PlainCode(c) && s == Subject(c)
  }

  /** Links lead to roles, and role codes are plain. */
  ghost predicate Tidy(table: set<Rule>) {
    && (forall r :: r in table && r.Link? ==> PlainRole(r.role) && (IsRole(r.member) ==> PlainRole(r.member)))
    && (forall r :: r in table && r.Grant? && IsRole(r.subject) ==> PlainRole(r.subject))
  }

  // ---------------------------------------------------------------------------------------
  // Who holds what
  // ---------------------------------------------------------------------------------------

  /** A chain of links, starting anywhere. */
  ghost predicate Path(table: set<Rule>, path: seq<string>) {
    path != [] && forall i :: 0 < i < |path| ==> Link(path[i - 1], path[i]) in table
  }

  ghost predicate Reaches(table: set<Rule>, a: string, b: string) {
    exists path :: Path(table, path) && path[0] == a && path[|path| - 1] == b
  }

  /** The subject holds the permission itself or through a chain of links. */
  ghost predicate Holds(table: set<Rule>, subject: string, obj: string, act: string) {
    exists r :: Reaches(table, subject, r) && Grant(r, obj, act) in table
  }

  /** `parentOf` records one outgoing link of every role that has one. */
  ghost predicate Records(table: set<Rule>, parentOf: map<string, string>) {
    && (forall m :: m in parentOf ==> IsRole(m) && Link(m, Subject(parentOf[m])) in table)
    && (forall r :: r in table && r.Link? && IsRole(r.member) ==> r.member in parentOf)
  }

  /** The grants copied from the recorded parent onto the child: those that name an object. */
  function Copies(table: set<Rule>, parentOf: map<string, string>, children: set<string>): set<Rule> {
    set m, r | m in children && m in parentOf && r in table && r.Grant? && r.obj != "" && r.subject == Subject(parentOf[m]) ::
      Grant(m, r.obj, r.act)
  }

  function WithoutRoleLinks(table: set<Rule>): set<Rule> {
    set r | r in table && !(r.Link? && IsRole(r.member))
  }

  function Flatten(table: set<Rule>, parentOf: map<string, string>): set<Rule> {
    WithoutRoleLinks(table) + Copies(table, parentOf, parentOf.Keys)
  }

  // ---------------------------------------------------------------------------------------
  // Flattening never widens
  // ---------------------------------------------------------------------------------------

  lemma ReachesOneMore(table: set<Rule>, a: string, b: string, c: string)
    requires Reaches(table, a, b) && Link(b, c) in table
    ensures Reaches(table, a, c)
  {
    var path :| Path(table, path) && path[0] == a && path[|path| - 1] == b;
    var longer := path + [c];
    assert Path(table, longer) && longer[0] == a && longer[|longer| - 1] == c;
  }

  lemma ReachesInMore(small: set<Rule>, big: set<Rule>, a: string, b: string)
    requires Reaches(small, a, b) && forall r :: r in small && r.Link? ==> r in big
    ensures Reaches(big, a, b)
  {
    var path :| Path(small, path) && path[0] == a && path[|path| - 1] == b;
    assert Path(big, path);
  }

  /**
   No subject, user or role, holds anything after the migration that it did not hold before,
   whatever the links: several parents, chains, cycles.
   */
  lemma FlatteningNeverWidens(table: set<Rule>, parentOf: map<string, string>, subject: string, obj: string, act: string)
    requires Records(table, parentOf)
    requires Holds(Flatten(table, parentOf), subject, obj, act)
    ensures Holds(table, subject, obj, act)
  {
    var after := Flatten(table, parentOf);
    var r :| Reaches(after, subject, r) && Grant(r, obj, act) in after;
    ReachesInMore(after, table, subject, r);
    if Grant(r, obj, act) !in table {
      assert r in parentOf && Grant(Subject(parentOf[r]), obj, act) in table;
      ReachesOneMore(table, subject, r, Subject(parentOf[r]));
    }
  }

  // ---------------------------------------------------------------------------------------
  // Exactly when it loses nothing
  // ---------------------------------------------------------------------------------------

  /**
   The links of every child lead to itself or to its recorded parent, and the recorded parent's
   own links lead back to one of these two.
   */
  ghost predicate OneLevel(table: set<Rule>, parentOf: map<string, string>) {
    && (forall m, q :: m in parentOf && Link(m, q) in table ==> q == m || q == Subject(parentOf[m]))
    && (forall m, q :: m in parentOf && Link(Subject(parentOf[m]), q) in table ==> q == m || q == Subject(parentOf[m]))
  }

  lemma {:induction false} OneLevelPath(table: set<Rule>, parentOf: map<string, string>, path: seq<string>)
    requires Records(table, parentOf) && OneLevel(table, parentOf)
    requires Path(table, path) && IsRole(path[0])
    ensures path[|path| - 1] == path[0] || (path[0] in parentOf && path[|path| - 1] == Subject(parentOf[path[0]]))
    decreases |path|
  {
    if |path| > 1 {
      var init := path[..|path| - 1];
      var last, next := path[|path| - 2], path[|path| - 1];
      assert Path(table, init) && init[0] == path[0] && init[|init| - 1] == last;
      OneLevelPath(table, parentOf, init);
      assert Link(last, next) in table;
      if last == path[0] {
        assert Link(last, next).member in parentOf;
      }
    }
  }

  /** One subject, one permission: nothing is lost if the links are one level deep. */
  lemma OneLevelLosesNothing(table: set<Rule>, parentOf: map<string, string>, subject: string, obj: string, act: string)
    requires Tidy(table) && Records(table, parentOf) && OneLevel(table, parentOf)
    requires Holds(table, subject, obj, act) && obj != ""
    ensures Holds(Flatten(table, parentOf), subject, obj, act)
  {
    var r :| Reaches(table, subject, r) && Grant(r, obj, act) in table;
    var path :| Path(table, path) && path[0] == subject && path[|path| - 1] == r;
    if IsRole(subject) {
      HeldByRole(table, parentOf, path, obj, act);
      HeldDirectly(Flatten(table, parentOf), subject, obj, act);
    } else if |path| == 1 {
      HeldDirectly(Flatten(table, parentOf), subject, obj, act);
    } else {
      RolesFollow(table, path);
      var tail := path[1..];
      assert Path(table, tail);
      HeldByRole(table, parentOf, tail, obj, act);
      HeldThroughLink(Flatten(table, parentOf), subject, path[1], obj, act);
    }
  }

  lemma RolesFollow(table: set<Rule>, path: seq<string>)
    requires Tidy(table) && Path(table, path) && |path| > 1
    ensures Link(path[0], path[1]) in table && IsRole(path[1])
  {
    assert Link(path[1 - 1], path[1]) in table;
  }

  lemma HeldByRole(table: set<Rule>, parentOf: map<string, string>, path: seq<string>, obj: string, act: string)
    requires Records(table, parentOf) && OneLevel(table, parentOf) && obj != ""
    requires Path(table, path) && IsRole(path[0]) && Grant(path[|path| - 1], obj, act) in table
    ensures Grant(path[0], obj, act) in Flatten(table, parentOf)
  {
    OneLevelPath(table, parentOf, path);
    DirectlyHeld(table, parentOf, path[0], path[|path| - 1], obj, act);
  }

  lemma HeldDirectly(table: set<Rule>, subject: string, obj: string, act: string)
    requires Grant(subject, obj, act) in table
    ensures Holds(table, subject, obj, act)
  {
    assert Path(table, [subject]);
    assert Reaches(table, subject, subject);
  }

  lemma HeldThroughLink(table: set<Rule>, subject: string, role: string, obj: string, act: string)
    requires Link(subject, role) in table && Grant(role, obj, act) in table
    ensures Holds(table, subject, obj, act)
  {
    assert Path(table, [subject, role]);
    assert Reaches(table, subject, role);
  }

  lemma DirectlyHeld(table: set<Rule>, parentOf: map<string, string>, role: string, holder: string, obj: string, act: string)
    requires Grant(holder, obj, act) in table && obj != ""
    requires holder == role || (role in parentOf && holder == Subject(parentOf[role]))
    ensures Grant(role, obj, act) in Flatten(table, parentOf)
  {
    if holder != role {
      var g := Grant(holder, obj, act);
      assert g in table && g.Grant? && g.subject == Subject(parentOf[role]);
    }
  }

  ghost predicate SameRights(links: set<Rule>, grants: set<Rule>, parentOf: map<string, string>) {
    forall subject, obj, act ::
      Holds(links + grants, subject, obj, act) <==> Holds(Flatten(links + grants, parentOf), subject, obj, act)
  }

  ghost predicate OnlyGrants(grants: set<Rule>) {
    Tidy(grants) && forall r :: r in grants ==> r.Grant? && r.obj != ""
  }

  /** Every subject keeps exactly its rights, whatever the roles have been granted. */
  ghost predicate KeepsAllRights(links: set<Rule>, parentOf: map<string, string>) {
    forall grants :: OnlyGrants(grants) ==> SameRights(links, grants, parentOf)
  }

  /** A grant to the far end of a deeper link is lost to the child. */
  lemma DeeperLinkLoses(links: set<Rule>, parentOf: map<string, string>, m: string, q: string)
    requires Tidy(links) && (forall r :: r in links ==> r.Link?) && Records(links, parentOf)
    requires m in parentOf && (Link(m, q) in links || Link(Subject(parentOf[m]), q) in links)
    requires q != m && q != Subject(parentOf[m])
    ensures OnlyGrants({Grant(q, "object", "act")})
    ensures Holds(links + {Grant(q, "object", "act")}, m, "object", "act")
    ensures !Holds(Flatten(links + {Grant(q, "object", "act")}, parentOf), m, "object", "act")
  {
    var g := Grant(q, "object", "act");
    var table := links + {g};
    var p := Subject(parentOf[m]);
    assert Path(table, [m]);
    assert Reaches(table, m, m);
    if Link(m, q) in links {
      ReachesOneMore(table, m, m, q);
    } else {
      ReachesOneMore(table, m, m, p);
      ReachesOneMore(table, m, p, q);
    }
    assert Grant(q, "object", "act") in table;
    var after := Flatten(table, parentOf);
    assert Grant(m, "object", "act") !in after by {
      assert forall r :: r in table && r.Grant? ==> r == g;
    }
    forall r | Reaches(after, m, r)
      ensures r == m
    {
      NoWayOut(table, parentOf, m, r);
    }
  }

  /** Without role links a role reaches only itself. */
  lemma NoWayOut(table: set<Rule>, parentOf: map<string, string>, m: string, r: string)
    requires IsRole(m) && Reaches(Flatten(table, parentOf), m, r)
    ensures r == m
  {
    var after := Flatten(table, parentOf);
    var path :| Path(after, path) && path[0] == m && path[|path| - 1] == r;
    FirstLink(after, path);
    assert forall q :: Link(m, q) !in after;
  }

  lemma FirstLink(table: set<Rule>, path: seq<string>)
    requires Path(table, path)
    ensures |path| == 1 || exists q :: Link(path[0], q) in table
  {
    if |path| > 1 {
      assert Link(path[1 - 1], path[1]) in table;
    }
  }

  /**
   Main result: the migration preserves every subject's rights for all possible grants if and
   only if the links are one level deep around each recorded parent.
   */
  lemma KeepsAllRightsIffOneLevel(links: set<Rule>, parentOf: map<string, string>)
    requires Tidy(links) && (forall r :: r in links ==> r.Link?) && Records(links, parentOf)
    ensures KeepsAllRights(links, parentOf) <==> OneLevel(links, parentOf)
  {
    if OneLevel(links, parentOf) {
      forall grants | OnlyGrants(grants)
        ensures SameRights(links, grants, parentOf)
      {
        OneLevelKeepsRights(links, grants, parentOf);
      }
    } else {
      var m, q := DeeperLink(links, parentOf);
      DeeperLinkLoses(links, parentOf, m, q);
      NotTheSameRights(links, {Grant(q, "object", "act")}, parentOf, m);
    }
  }

  lemma DeeperLink(links: set<Rule>, parentOf: map<string, string>) returns (m: string, q: string)
    requires !OneLevel(links, parentOf)
    ensures m in parentOf && (Link(m, q) in links || Link(Subject(parentOf[m]), q) in links)
    ensures q != m && q != Subject(parentOf[m])
  {
    if n, r :| n in parentOf && Link(n, r) in links && r != n && r != Subject(parentOf[n]) {
      m, q := n, r;
    } else {
      m, q :| m in parentOf && Link(Subject(parentOf[m]), q) in links && q != m && q != Subject(parentOf[m]);
    }
  }

  lemma NotTheSameRights(links: set<Rule>, grants: set<Rule>, parentOf: map<string, string>, m: string)
    requires OnlyGrants(grants) && Holds(links + grants, m, "object", "act")
    requires !Holds(Flatten(links + grants, parentOf), m, "object", "act")
    ensures !KeepsAllRights(links, parentOf)
  {
    assert !SameRights(links, grants, parentOf);
  }

  lemma OneLevelKeepsRights(links: set<Rule>, grants: set<Rule>, parentOf: map<string, string>)
    requires Tidy(links) && (forall r :: r in links ==> r.Link?) && Records(links, parentOf)
    requires OneLevel(links, parentOf) && OnlyGrants(grants)
    ensures SameRights(links, grants, parentOf)
  {
    var table := links + grants;
    assert forall a, b :: Link(a, b) in table <==> Link(a, b) in links;
    assert Records(table, parentOf) && OneLevel(table, parentOf) && Tidy(table);
    forall subject, obj, act
      ensures Holds(table, subject, obj, act) <==> Holds(Flatten(table, parentOf), subject, obj, act)
    {
      if Holds(table, subject, obj, act) {
        OneLevelLosesNothing(table, parentOf, subject, obj, act);
      }
      if Holds(Flatten(table, parentOf), subject, obj, act) {
        FlatteningNeverWidens(table, parentOf, subject, obj, act);
      }
    }
  }

  /** A role that inherits from a role that inherits: the shortest table whose rights are lost. */
  lemma ChainsAreNotPreserved()
    ensures
      var links := {Link("role:A", "role:B"), Link("role:B", "role:C")};
      var parentOf := map["role:A" := "B", "role:B" := "C"];
      Tidy(links) && Records(links, parentOf) && !KeepsAllRights(links, parentOf)
  {
    var links := {Link("role:A", "role:B"), Link("role:B", "role:C")};
    var parentOf := map["role:A" := "B", "role:B" := "C"];
    assert "role:A" == Subject("A") && "role:B" == Subject("B") && "role:C" == Subject("C");
    assert PlainCode("A") && PlainCode("B") && PlainCode("C");
    assert PlainRole("role:A") && PlainRole("role:B") && PlainRole("role:C");
    assert IsRole("role:A") && IsRole("role:B");
    assert Link(Subject(parentOf["role:A"]), "role:C") in links;
    assert "role:C"[5] != "role:A"[5] && "role:C"[5] != "role:B"[5];
    assert !OneLevel(links, parentOf);
    KeepsAllRightsIffOneLevel(links, parentOf);
  }

  // ---------------------------------------------------------------------------------------
  // The migration, loop by loop
  // ---------------------------------------------------------------------------------------

  const USER: string := "user:"

  /** `... GROUP BY v0 HAVING count(*) > 1` over the links of users. */
  function MultiRoleUsers(table: set<Rule>): set<string> {
    set a, b | a in table && b in table && a.Link? && b.Link? && USER <= a.member && a.member == b.member && a != b :: a.member
  }

  /** The users reported: those linked to two roles. */
  lemma MultiRoleUsersAre(table: set<Rule>, user: string)
    ensures user in MultiRoleUsers(table) <==>
            "user:" <= user && exists r, q :: r != q && Link(user, r) in table && Link(user, q) in table
  {
    if user in MultiRoleUsers(table) {
      var a, b :| a in table && b in table && a.Link? && b.Link? && USER <= a.member && a.member == b.member && a != b && a.member == user;
      assert Link(user, a.role) in table && Link(user, b.role) in table;
    }
    if r, q :| "user:" <= user && r != q && Link(user, r) in table && Link(user, q) in table {
      assert Link(user, r).member == user;
      assert Link(user, r) != Link(user, q);
    }
  }

  function GrantsFor(table: set<Rule>, subject: string): set<(string, string)> {
    set r | r in table && r.Grant? && r.subject == subject :: (r.obj, r.act)
  }

  function Listed(byRole: map<string, set<(string, string)>>, code: string): set<(string, string)> {
    if code in byRole then byRole[code] else {}
  }

  /** Under every plain code: exactly the grants of its role. */
  ghost predicate ListsPlain(byRole: map<string, set<(string, string)>>, table: set<Rule>) {
    forall c :: PlainCode(c) ==> Listed(byRole, c) == GrantsFor(table, Subject(c))
  }

  ghost predicate ListsGrants(byRole: map<string, set<(string, string)>>, table: set<Rule>) {
    ListsPlain(byRole, table) && forall k :: k in byRole ==> PlainCode(k)
  }

  function AsRules(subject: string, grants: set<(string, string)>): set<Rule> {
    set g | g in grants && g.0 != "" :: Grant(subject, g.0, g.1)
  }

  ghost predicate PlainParents(parentOf: map<string, string>) {
    forall m :: m in parentOf ==> IsRole(m) && PlainCode(parentOf[m])
  }

  /**
   The walk compares codes with keys that are subjects, so it stops after one level: a plain
   code is never a key.
   */
  method Ancestors(parentOf: map<string, string>, code: string) returns (chain: seq<string>)
    requires PlainParents(parentOf)
    ensures chain == if code in parentOf then [parentOf[code]] else []
  {
    chain := [];
    var visited: set<string> := {};
    var current := code;
    while current in parentOf && current !in visited
      invariant visited <= parentOf.Keys
      invariant
        || (current == code && chain == [] && visited == {})
        || (code in parentOf && current == parentOf[code] && chain == [current] && current !in parentOf)
      decreases parentOf.Keys - visited
    {
      visited := visited + {current};
      current := parentOf[current];
      chain := chain + [current];
    }
  }

  lemma PlainRoleCode(s: string)
    requires PlainRole(s)
    ensures IsRole(s) && PlainCode(AfterColon(s)) && Subject(AfterColon(s)) == s
  {
    var c :| PlainCode(c) && s == Subject(c);
    AfterColonOfSubject(c);
  }

  /** `parent_of = {child: parent.split(":", 1)[1] for child, parent in edges}`, in any order. */
  method RecordParents(table: set<Rule>) returns (parentOf: map<string, string>)
    requires Tidy(table)
    ensures Records(table, parentOf) && PlainParents(parentOf)
  {
    parentOf := map[];
    var todo := set r | r in table && r.Link? && IsRole(r.member);
    while todo != {}
      invariant todo <= table && forall r :: r in todo ==> r.Link? && IsRole(r.member)
      invariant forall m :: m in parentOf ==> IsRole(m) && Link(m, Subject(parentOf[m])) in table
      invariant PlainParents(parentOf)
      invariant forall r :: r in table && r.Link? && IsRole(r.member) && r !in todo ==> r.member in parentOf
    {
      var r :| r in todo;
      PlainRoleCode(r.role);
      parentOf := parentOf[r.member := AfterColon(r.role)];
      todo := todo - {r};
    }
  }

  /** `grants_by_role`, keyed by code. */
  method CollectGrants(table: set<Rule>) returns (byRole: map<string, set<(string, string)>>)
    requires Tidy(table)
    ensures ListsGrants(byRole, table)
  {
    byRole := map[];
    var todo := set r | r in table && r.Grant? && IsRole(r.subject);
    ghost var done: set<Rule> := {};
    while todo != {}
      invariant todo <= table && done <= table && forall r :: r in todo ==> r.Grant? && IsRole(r.subject)
      invariant forall r :: r in table && r.Grant? && IsRole(r.subject) ==> (r in todo <==> r !in done)
      invariant forall k :: k in byRole ==> PlainCode(k)
      invariant forall c :: PlainCode(c) ==> Listed(byRole, c) == GrantsFor(done, Subject(c))
    {
      var r :| r in todo;
      PlainRoleCode(r.subject);
      var code := AfterColon(r.subject);
      forall c | PlainCode(c)
        ensures GrantsFor(done + {r}, Subject(c)) == GrantsFor(done, Subject(c)) + if c == code then {(r.obj, r.act)} else {}
      {
        if Subject(c) == r.subject {
          SubjectInjective(c, code);
        }
      }
      byRole := byRole[code := Listed(byRole, code) + {(r.obj, r.act)}];
      todo, done := todo - {r}, done + {r};
    }
    forall c | PlainCode(c)
      ensures GrantsFor(done, Subject(c)) == GrantsFor(table, Subject(c))
    {
      assert IsRole(Subject(c));
    }
  }

  class CasbinTable {
    var rules: set<Rule>

    constructor ()
      ensures rules == {}
    {
      rules := {};
    }

    /** `_insert`: rows already present are skipped, as the unique constraint demands. */
    method Insert(x: Rule)
      modifies this
      ensures rules == old(rules) + {x}
    {
      if x in rules {
        return;
      }
      rules := rules + {x};
    }

    /** The `INSERT ... WHERE NOT EXISTS` statements of one child. */
    method InsertGrants(child: string, grants: set<(string, string)>)
      modifies this
      ensures rules == old(rules) + AsRules(child, grants)
    {
      var todo := grants;
      while todo != {}
        invariant todo <= grants && rules == old(rules) + AsRules(child, grants - todo)
      {
        var g :| g in todo;
        if g.0 != "" {
          Insert(Grant(child, g.0, g.1));
        }
        assert grants - (todo - {g}) == (grants - todo) + {g};
        todo := todo - {g};
      }
      assert grants - todo == grants;
    }

    method Materialize(parentOf: map<string, string>, grantsByRole: map<string, set<(string, string)>>)
      requires Tidy(rules) && Records(rules, parentOf) && PlainParents(parentOf)
      requires ListsGrants(grantsByRole, rules)
      modifies this
      ensures rules == old(rules) + Copies(old(rules), parentOf, parentOf.Keys)
    {
      ghost var table := rules;
      var byRole := grantsByRole;
      var todo := parentOf.Keys;
      while todo != {}
        invariant todo <= parentOf.Keys
        invariant rules == table + Copies(table, parentOf, parentOf.Keys - todo)
        invariant ListsPlain(byRole, table)
        invariant forall m :: m in todo ==> m !in byRole
      {
        var child :| child in todo;
        CopyingOneMore(rules, table, parentOf, todo, child);
        byRole := MaterializeChild(table, parentOf, child, byRole);
        todo := todo - {child};
      }
      assert parentOf.Keys - todo == parentOf.Keys;
    }

    /** One turn of the loop: the child's list becomes its own grants and those of its chain. */
    method MaterializeChild(ghost table: set<Rule>, parentOf: map<string, string>, child: string,
                            grantsByRole: map<string, set<(string, string)>>)
      returns (byRole: map<string, set<(string, string)>>)
      requires Tidy(table) && PlainParents(parentOf) && child in parentOf && child !in grantsByRole
      requires ListsPlain(grantsByRole, table)
      modifies this
      ensures rules == old(rules) + AsRules(child, GrantsFor(table, Subject(parentOf[child])))
      ensures ListsPlain(byRole, table) && byRole.Keys == grantsByRole.Keys + {child}
    {
      var childGrants := Listed(grantsByRole, child);
      var chain := Ancestors(parentOf, child);
      for i := 0 to |chain|
        invariant childGrants == if i == 0 then {} else GrantsFor(table, Subject(parentOf[child]))
      {
        childGrants := childGrants + Listed(grantsByRole, chain[i]);
      }
      byRole := grantsByRole[child := childGrants];
      InsertGrants(child, childGrants);
    }

    /** The whole revision; `Failure` is the multi-role abort, which changes nothing. */
    method Upgrade() returns (outcome: Result<map<string, string>, set<string>>)
      requires Tidy(rules)
      modifies this
      ensures outcome.Failure? <==> MultiRoleUsers(old(rules)) != {}
      ensures outcome.Failure? ==> rules == old(rules) && outcome.error == MultiRoleUsers(old(rules))
      ensures outcome.Success? ==> Records(old(rules), outcome.value) && rules == Flatten(old(rules), outcome.value)
    {
      var multi := MultiRoleUsers(rules);
      if multi != {} {
        return Failure(multi);
      }
      var parentOf := RecordParents(rules);
      var byRole := CollectGrants(rules);
      Materialize(parentOf, byRole);
      rules := set r | r in rules && !(r.Link? && IsRole(r.member));
      return Success(parentOf);
    }
  }

  lemma CopyingOneMore(rules: set<Rule>, table: set<Rule>, parentOf: map<string, string>, todo: set<string>, child: string)
    requires child in todo && todo <= parentOf.Keys
    requires rules == table + Copies(table, parentOf, parentOf.Keys - todo)
    ensures rules + AsRules(child, GrantsFor(table, Subject(parentOf[child]))) ==
            table + Copies(table, parentOf, parentOf.Keys - (todo - {child}))
  {
    CopiesOneMore(table, parentOf, parentOf.Keys - todo, child);
    assert parentOf.Keys - (todo - {child}) == (parentOf.Keys - todo) + {child};
  }

  lemma CopiesOneMore(table: set<Rule>, parentOf: map<string, string>, children: set<string>, child: string)
    requires child in parentOf
    ensures Copies(table, parentOf, children + {child}) ==
            Copies(table, parentOf, children) + AsRules(child, GrantsFor(table, Subject(parentOf[child])))
  {
    var p := Subject(parentOf[child]);
    forall x | x in Copies(table, parentOf, children + {child})
      ensures x in Copies(table, parentOf, children) + AsRules(child, GrantsFor(table, p))
    {
      var r :| r in table && r.Grant? && r.obj != "" && r.subject == Subject(parentOf[x.subject]) && x == Grant(x.subject, r.obj, r.act);
      assert x.subject == child ==> (r.obj, r.act) in GrantsFor(table, p);
    }
    forall x | x in AsRules(child, GrantsFor(table, p))
      ensures x in Copies(table, parentOf, children + {child})
    {
      var g :| g in GrantsFor(table, p) && x == Grant(child, g.0, g.1);
      var r :| r in table && r.Grant? && r.subject == p && (r.obj, r.act) == g;
      assert x == Grant(child, r.obj, r.act);
    }
  }
}
