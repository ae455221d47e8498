/**
 Revisions f1a2b3c4d5e6, a2b3c4d5e6f7, a1b2c3d4e5f7 and b4c5d6e7f8a9 run one after the other on the
 role assignments: expire all but the first, normalize, copy to the Casbin table, enforce one
 role per user.
 */
module SingleRole {
  import opened Wrappers
  import opened Collections
  import opened RoleFlattening
  import opened CasbinCopy

  /** A row of `user_role_assignments`; instants are integers. */
  datatype Row = Row(user: nat, role: nat, expires: Option<int>)

  type Rows = map<nat, Row>

  // ---------------------------------------------------------------------------------------
  // The ranking
  // ---------------------------------------------------------------------------------------

  /** `expires_at IS NULL OR expires_at > now()` */
  predicate ActiveAt(row: Row, now: int) {
    row.expires.None? || row.expires.value > now
  }

  /** `PARTITION BY user_id` of the active rows */
  predicate Ranked(rows: Rows, now: int, user: nat, id: nat) {
    id in rows && rows[id].user == user && ActiveAt(rows[id], now)
  }

  /** `ORDER BY (expires_at IS NULL) DESC, id` */
  predicate Before(rows: Rows, i: nat, j: nat)
    requires i in rows && j in rows
  {
    if rows[i].expires.None? == rows[j].expires.None? then i < j else rows[i].expires.None?
  }

  /** `ROW_NUMBER()` of an active row */
  function RowNumber(rows: Rows, now: int, id: nat): nat
    requires id in rows
  {
    1 + |set i | i in rows && Ranked(rows, now, rows[id].user, i) && Before(rows, i, id)|
  }

  /** Meaning of `rn = 1`: no other active row of the user comes before. */
  ghost predicate First(rows: Rows, now: int, user: nat, id: nat) {
    Ranked(rows, now, user, id) && forall i :: Ranked(rows, now, user, i) ==> i == id || Before(rows, id, i)
  }

  lemma RowNumberOneIsFirst(rows: Rows, now: int, id: nat)
    requires id in rows && ActiveAt(rows[id], now)
    ensures RowNumber(rows, now, id) == 1 <==> First(rows, now, rows[id].user, id)
  {
    var ahead := set i | i in rows && Ranked(rows, now, rows[id].user, i) && Before(rows, i, id);
    if ahead != {} {
      var i :| i in ahead;
      assert Ranked(rows, now, rows[id].user, i);
    } else {
      forall i | Ranked(rows, now, rows[id].user, i) && i != id
        ensures Before(rows, id, i)
      {
        assert i !in ahead;
      }
    }
  }

  /** The first row spelled out: still running, and every other running row of the user is temporary, or younger. */
  lemma FirstIs(rows: Rows, now: int, user: nat, id: nat)
    ensures First(rows, now, user, id) <==>
      && id in rows && rows[id].user == user && (rows[id].expires == None || rows[id].expires.value > now)
      && (forall i :: i in rows && rows[i].user == user && rows[i].expires == None ==> rows[id].expires == None && id <= i)
      && (forall i :: (i in rows && rows[i].user == user && rows[i].expires.Some? && rows[i].expires.value > now && rows[id].expires.Some?)
            ==> id <= i)
  {
    forall i
      ensures Ranked(rows, now, user, i) <==>
        i in rows && rows[i].user == user && (rows[i].expires == None || rows[i].expires.value > now)
    {
    }
  }

  lemma FirstIsUnique(rows: Rows, now: int, user: nat, i: nat, j: nat)
    requires First(rows, now, user, i) && First(rows, now, user, j)
    ensures i == j
  {
  }

  /** Every user with an active row has a first one. */
  lemma FirstExists(rows: Rows, now: int, user: nat, id: nat) returns (first: nat)
    requires Ranked(rows, now, user, id)
    ensures First(rows, now, user, first)
  {
    var candidates := set i | i in rows && Ranked(rows, now, user, i);
    assert id in candidates;
    first := Least(rows, candidates);
  }

  lemma {:induction false} Least(rows: Rows, s: set<nat>) returns (m: nat)
    requires s != {} && s <= rows.Keys
    ensures m in s && forall i :: i in s ==> i == m || Before(rows, m, i)
    decreases |s|
  {
    m :| m in s;
    var rest := s - {m};
    if rest != {} {
      var other := Least(rows, rest);
      var held := m;
      if Before(rows, other, m) {
        m := other;
      }
      forall i | i in s
        ensures i == m || Before(rows, m, i)
      {
        assert i == held || i in rest;
      }
    }
  }

  // ---------------------------------------------------------------------------------------
  // What the two UPDATE statements make of the table
  // ---------------------------------------------------------------------------------------

  /** f1a2b3c4d5e6: every active row that is not first expires now. */
  function Expire(rows: Rows, now: int): Rows {
    map id | id in rows ::
      if ActiveAt(rows[id], now) && RowNumber(rows, now, id) > 1 then rows[id].(expires := Some(now)) else rows[id]
  }

  /** a2b3c4d5e6f7: the first active row becomes open-ended, the others expire now. */
  function Normalize(rows: Rows, now: int): Rows {
    map id | id in rows ::
      if !ActiveAt(rows[id], now) then rows[id]
      else rows[id].(expires := if RowNumber(rows, now, id) == 1 then None else Some(now))
  }

  /** `uq_user_role_assignments_active_user` */
  predicate OneOpen(rows: Rows) {
    forall i, j :: i in rows && j in rows && rows[i].expires.None? && rows[j].expires.None? && rows[i].user == rows[j].user ==> i == j
  }

  ghost predicate OneActive(rows: Rows, now: int) {
    forall user, i, j :: Ranked(rows, now, user, i) && Ranked(rows, now, user, j) ==> i == j
  }

  /** After the first revision each user is left with exactly the first active row, unchanged. */
  lemma ExpireLeavesFirst(rows: Rows, now: int, user: nat, id: nat)
    ensures Ranked(Expire(rows, now), now, user, id) <==> First(rows, now, user, id)
    ensures First(rows, now, user, id) ==> Expire(rows, now)[id] == rows[id]
  {
    if id in rows && ActiveAt(rows[id], now) {
      RowNumberOneIsFirst(rows, now, id);
    }
  }

  /** The first revision can build its index: at most one open row per user. */
  lemma ExpireLeavesOne(rows: Rows, now: int)
    ensures OneActive(Expire(rows, now), now)
    ensures OneOpen(Expire(rows, now))
  {
    var after := Expire(rows, now);
    forall user, i, j | Ranked(after, now, user, i) && Ranked(after, now, user, j)
      ensures i == j
    {
      ExpireLeavesFirst(rows, now, user, i);
      ExpireLeavesFirst(rows, now, user, j);
      FirstIsUnique(rows, now, user, i, j);
    }
    forall i, j | i in after && j in after && after[i].expires.None? && after[j].expires.None? && after[i].user == after[j].user
      ensures i == j
    {
      assert Ranked(after, now, after[i].user, i) && Ranked(after, now, after[i].user, j);
    }
  }

  /** After the second revision the open rows are exactly the first active ones. */
  lemma NormalizeOpensFirst(rows: Rows, now: int, user: nat, id: nat)
    ensures id in rows && rows[id].user == user && Normalize(rows, now)[id].expires.None? <==> First(rows, now, user, id)
  {
    if id in rows && ActiveAt(rows[id], now) {
      RowNumberOneIsFirst(rows, now, id);
    }
  }

  /** The two together: open rows are the first rows that still run at the second revision. */
  lemma OpenAfterBoth(rows: Rows, now1: int, now2: int, user: nat, id: nat)
    requires now1 <= now2
    ensures id in rows && rows[id].user == user && Normalize(Expire(rows, now1), now2)[id].expires.None? <==>
            First(rows, now1, user, id) && ActiveAt(rows[id], now2)
  {
    var mid := Expire(rows, now1);
    NormalizeOpensFirst(mid, now2, user, id);
    ExpireLeavesFirst(rows, now1, user, id);
    forall i | Ranked(mid, now2, user, i)
      ensures First(rows, now1, user, i)
    {
      ExpireLeavesFirst(rows, now1, user, i);
    }
    if First(rows, now1, user, id) && ActiveAt(rows[id], now2) {
      forall i | Ranked(mid, now2, user, i)
        ensures i == id
      {
        FirstIsUnique(rows, now1, user, i, id);
      }
    }
  }

  // ---------------------------------------------------------------------------------------
  // The second revision never trips over the index, in whatever order rows are updated
  // ---------------------------------------------------------------------------------------

  /** Some rows already have their new value. */
  ghost predicate Partly(rows: Rows, was: Rows, now: int, todo: set<nat>) {
    && rows.Keys == was.Keys
    && forall id :: id in was ==> rows[id] == if id in todo then was[id] else Normalize(was, now)[id]
  }

  lemma OpenIsFirst(rows: Rows, now: int, id: nat)
    requires OneOpen(rows) && id in rows && rows[id].expires.None?
    ensures First(rows, now, rows[id].user, id)
  {
  }

  lemma PartlyIsOneOpen(rows: Rows, was: Rows, now: int, todo: set<nat>)
    requires OneOpen(was) && Partly(rows, was, now, todo)
    ensures OneOpen(rows)
  {
    forall i | i in rows && rows[i].expires.None?
      ensures First(was, now, rows[i].user, i)
    {
      if i in todo {
        OpenIsFirst(was, now, i);
      } else {
        NormalizeOpensFirst(was, now, was[i].user, i);
      }
    }
  }

  lemma PartlyOneMore(rows: Rows, was: Rows, now: int, todo: set<nat>, id: nat)
    requires Partly(rows, was, now, todo) && id in todo && todo <= was.Keys
    ensures rows[id] == was[id]
    ensures
      var next := if !ActiveAt(was[id], now) then rows
                  else rows[id := rows[id].(expires := if RowNumber(was, now, id) == 1 then None else Some(now))];
      Partly(next, was, now, todo - {id})
  {
  }

  lemma PartlyDone(rows: Rows, was: Rows, now: int)
    requires Partly(rows, was, now, {})
    ensures rows == Normalize(was, now)
  {
  }

  // ---------------------------------------------------------------------------------------
  // Users left without a role
  // ---------------------------------------------------------------------------------------

  const MIGRATED: string := "MIGRATED_NO_ACCESS"

  predicate HasOpen(rows: Rows, user: nat) {
    exists id :: id in rows && rows[id].user == user && rows[id].expires.None?
  }

  /** The active users the second revision maps to the role without permissions. */
  function Roleless(rows: Rows, active: set<nat>): set<nat> {
    set u | u in active && !HasOpen(rows, u)
  }

  /** Old rows are kept, and each of the users has one new open row on the given role. */
  ghost predicate Mapped(rows: Rows, was: Rows, users: set<nat>, role: nat) {
    && was.Keys <= rows.Keys
    && (forall id :: id in was ==> rows[id] == was[id])
    && (forall id :: id in rows && id !in was ==> rows[id].user in users && rows[id].role == role && rows[id].expires.None?)
    && (forall u :: u in users ==> HasOpen(rows, u))
  }

  // ---------------------------------------------------------------------------------------
  // Roles in the Casbin table
  // ---------------------------------------------------------------------------------------

  function Renamed(roles: Codes): Codes {
    map r | r in roles :: if roles[r] == LEGACY_SUPER_ADMIN then SUPER_ADMIN else roles[r]
  }

  function OpenPairs(rows: Rows): set<(nat, nat)> {
    set id | id in rows && rows[id].expires.None? :: (rows[id].user, rows[id].role)
  }

  ghost function RolesOf(table: set<Rule>, user: nat): set<string> {
    set x | x in table && x.Link? && x.member == UserSubject(user) :: x.role
  }

  ghost predicate KnowsRoles(rows: Rows, roles: Codes) {
    forall id :: id in rows ==> rows[id].role in roles
  }

  lemma RolesOfCopy(rows: Rows, roles: Codes, others: set<Rule>, user: nat)
    requires KnowsRoles(rows, roles) && forall x :: x in others ==> x.Grant?
    ensures RolesOf(others + CopiedAssignments(OpenPairs(rows), roles), user) ==
            set id | id in rows && rows[id].user == user && rows[id].expires.None? :: Subject(roles[rows[id].role])
  {
    var table := others + CopiedAssignments(OpenPairs(rows), roles);
    forall x | x in table && x.Link? && x.member == UserSubject(user)
      ensures exists id :: id in rows && rows[id].user == user && rows[id].expires.None? && x.role == Subject(roles[rows[id].role])
    {
      var a :| a in OpenPairs(rows) && x == CasbinCopy.Assignment(a, roles);
      UserSubjectInjective(a.0, user);
      var id :| id in rows && rows[id].expires.None? && a == (rows[id].user, rows[id].role);
      assert rows[id].user == user;
    }
    forall id | id in rows && rows[id].user == user && rows[id].expires.None?
      ensures Subject(roles[rows[id].role]) in RolesOf(table, user)
    {
      var a := (rows[id].user, rows[id].role);
      assert a in OpenPairs(rows);
      assert CasbinCopy.Assignment(a, roles) in table;
    }
  }

  /** One open row per user becomes at most one link per user: the abort cannot fire. */
  lemma OneOpenOneLink(rows: Rows, roles: Codes, others: set<Rule>)
    requires OneOpen(rows) && KnowsRoles(rows, roles) && forall x :: x in others ==> x.Grant?
    ensures MultiRoleUsers(others + CopiedAssignments(OpenPairs(rows), roles)) == {}
  {
    forall x, y | x in CopiedAssignments(OpenPairs(rows), roles) && y in CopiedAssignments(OpenPairs(rows), roles) && x.member == y.member
      ensures x == y
    {
      var a :| a in OpenPairs(rows) && x == CasbinCopy.Assignment(a, roles);
      var b :| b in OpenPairs(rows) && y == CasbinCopy.Assignment(b, roles);
      UserSubjectInjective(a.0, b.0);
    }
  }

  /** Exactly the legacy administrator is renamed. */
  lemma RenamedIs(roles: Codes, r: nat)
    requires r in roles
    ensures r in Renamed(roles)
    ensures Renamed(roles)[r] == if roles[r] == "PLATFORM_ADMIN" then "SUPER_ADMIN" else roles[r]
  {
  }

  /** Renaming keeps codes unique unless both names are taken. */
  lemma RenamedIsUnique(roles: Codes)
    requires UniqueCodes(roles)
    ensures UniqueCodes(Renamed(roles)) <==> !(SUPER_ADMIN in roles.Values && LEGACY_SUPER_ADMIN in roles.Values)
  {
    if i, j :| i in roles && j in roles && roles[i] == SUPER_ADMIN && roles[j] == LEGACY_SUPER_ADMIN {
      assert Renamed(roles)[i] == Renamed(roles)[j] && i != j;
    }
  }

  // ---------------------------------------------------------------------------------------
  // The role a user ends up with
  // ---------------------------------------------------------------------------------------

  /** The role of the user's first active row, if that row still runs at the second revision. */
  ghost function KeptRoles(rows: Rows, roles: Codes, now1: int, now2: int, user: nat): set<string>
    requires KnowsRoles(rows, roles)
  {
    set id | id in rows && First(rows, now1, user, id) && ActiveAt(rows[id], now2) :: Subject(Renamed(roles)[rows[id].role])
  }

  /** Otherwise an active user gets the role without permissions, and an inactive one nothing. */
  ghost function FinalRoles(rows: Rows, roles: Codes, active: set<nat>, now1: int, now2: int, user: nat): set<string>
    requires KnowsRoles(rows, roles)
  {
    var kept := KeptRoles(rows, roles, now1, now2, user);
    if kept != {} then kept else if user in active then {Subject(MIGRATED)} else {}
  }

  lemma AtMostOneFinalRole(rows: Rows, roles: Codes, active: set<nat>, now1: int, now2: int, user: nat, a: string, b: string)
    requires KnowsRoles(rows, roles)
    requires a in FinalRoles(rows, roles, active, now1, now2, user) && b in FinalRoles(rows, roles, active, now1, now2, user)
    ensures a == b
  {
    if KeptRoles(rows, roles, now1, now2, user) != {} {
      var i :| First(rows, now1, user, i) && a == Subject(Renamed(roles)[rows[i].role]);
      var j :| First(rows, now1, user, j) && b == Subject(Renamed(roles)[rows[j].role]);
      FirstIsUnique(rows, now1, user, i, j);
    }
  }

  ghost function OpenRoles(rows: Rows, roles: Codes, user: nat): set<string>
    requires KnowsRoles(rows, roles)
  {
    set id | id in rows && rows[id].user == user && rows[id].expires.None? :: Subject(roles[rows[id].role])
  }

  /** The role table grew by at most the role without permissions. */
  ghost predicate Extends(roles: Codes, was: Codes) {
    was.Keys <= roles.Keys && forall r :: r in was ==> roles[r] == was[r]
  }

  lemma OpenRolesAreFinal(rows: Rows, was: Rows, roles: Codes, wasRoles: Codes, active: set<nat>, migrated: nat,
                          now1: int, now2: int, user: nat)
    requires now1 <= now2 && KnowsRoles(was, wasRoles) && Extends(roles, wasRoles) && KnowsRoles(rows, roles)
    requires var mid := Normalize(Expire(was, now1), now2); Mapped(rows, mid, Roleless(mid, active), migrated)
    requires Roleless(Normalize(Expire(was, now1), now2), active) != {} ==> migrated in roles && roles[migrated] == MIGRATED
    ensures OpenRoles(rows, Renamed(roles), user) == FinalRoles(was, wasRoles, active, now1, now2, user)
  {
    KeptRolesAreOpen(was, wasRoles, roles, now1, now2, user);
    MappedRoles(rows, Normalize(Expire(was, now1), now2), roles, active, migrated, user);
  }

  lemma KeptRolesAreOpen(was: Rows, wasRoles: Codes, roles: Codes, now1: int, now2: int, user: nat)
    requires now1 <= now2 && KnowsRoles(was, wasRoles) && Extends(roles, wasRoles)
    ensures KnowsRoles(Normalize(Expire(was, now1), now2), roles)
    ensures OpenRoles(Normalize(Expire(was, now1), now2), Renamed(roles), user) == KeptRoles(was, wasRoles, now1, now2, user)
  {
    var mid := Normalize(Expire(was, now1), now2);
    forall id
      ensures id in mid && mid[id].user == user && mid[id].expires.None? <==> id in was && First(was, now1, user, id) && ActiveAt(was[id], now2)
    {
      OpenAfterBoth(was, now1, now2, user, id);
    }
    SameRoleNames(mid, was, roles, wasRoles);
  }

  lemma SameRoleNames(mid: Rows, was: Rows, roles: Codes, wasRoles: Codes)
    requires mid.Keys == was.Keys && KnowsRoles(was, wasRoles) && Extends(roles, wasRoles)
    requires forall id :: id in was ==> mid[id].role == was[id].role
    ensures KnowsRoles(mid, roles)
    ensures forall id :: id in was ==> Renamed(roles)[mid[id].role] == Renamed(wasRoles)[was[id].role]
  {
  }

  lemma MappedRoles(rows: Rows, mid: Rows, roles: Codes, active: set<nat>, migrated: nat, user: nat)
    requires Mapped(rows, mid, Roleless(mid, active), migrated) && KnowsRoles(rows, roles) && KnowsRoles(mid, roles)
    requires Roleless(mid, active) != {} ==> migrated in roles && roles[migrated] == MIGRATED
    ensures OpenRoles(rows, Renamed(roles), user) ==
            if OpenRoles(mid, Renamed(roles), user) != {} then OpenRoles(mid, Renamed(roles), user)
            else if user in active then {Subject(MIGRATED)} else {}
  {
    var before, after := OpenRoles(mid, Renamed(roles), user), OpenRoles(rows, Renamed(roles), user);
    if user in Roleless(mid, active) {
      assert before == {} by {
        assert forall id :: id in mid && mid[id].user == user ==> !mid[id].expires.None?;
      }
      assert HasOpen(rows, user);
      var id :| id in rows && rows[id].user == user && rows[id].expires.None?;
      assert id !in mid;
      assert Subject(Renamed(roles)[rows[id].role]) == Subject(MIGRATED);
      assert Subject(MIGRATED) in after;
      assert forall i :: i in rows && rows[i].user == user && rows[i].expires.None? ==> i !in mid;
      assert after == {Subject(MIGRATED)};
    } else {
      assert forall id :: id in rows && rows[id].user == user && rows[id].expires.None? ==> id in mid;
      assert after == before;
      if HasOpen(mid, user) {
        var id :| id in mid && mid[id].user == user && mid[id].expires.None?;
        assert Subject(Renamed(roles)[mid[id].role]) in before;
      }
    }
  }

  // ---------------------------------------------------------------------------------------
  // The revisions, statement by statement
  // ---------------------------------------------------------------------------------------

  class Database {
    var rows: Rows
    var roles: Codes
    var nextRow: nat
    var nextRole: nat

    /** Serial ids are fresh, `uq_roles_code` holds, and rows refer to known roles. */
    ghost predicate Valid()
      reads this
    {
      && (forall id :: id in rows ==> id < nextRow)
      && (forall r :: r in roles ==> r < nextRole)
      && UniqueCodes(roles) && KnowsRoles(rows, roles)
    }

    /** f1a2b3c4d5e6; `built` is the unique index. */
    method KeepEarliest(now: int) returns (built: bool)
      requires Valid()
      modifies this`rows
      ensures Valid() && built && OneOpen(rows)
      ensures rows == Expire(old(rows), now)
    {
      var ranked := rows;
      var todo := rows.Keys;
      while todo != {}
        invariant todo <= ranked.Keys && rows.Keys == ranked.Keys
        invariant forall id :: id in ranked ==> rows[id] == if id in todo then ranked[id] else Expire(ranked, now)[id]
      {
        var id := Take(todo);
        if ActiveAt(ranked[id], now) && RowNumber(ranked, now, id) > 1 {
          rows := rows[id := rows[id].(expires := Some(now))];
        }
        todo := todo - {id};
      }
      assert rows == Expire(ranked, now);
      ExpireLeavesOne(ranked, now);
      built := OneOpen(rows);
    }

    /** The `UPDATE` of a2b3c4d5e6f7: the index is checked after each row; false is a violation. */
    method NormalizeAll(now: int) returns (ok: bool)
      requires Valid() && OneOpen(rows)
      modifies this`rows
      ensures Valid() && ok && OneOpen(rows)
      ensures rows == Normalize(old(rows), now)
    {
      var ranked := rows;
      var todo := rows.Keys;
      while todo != {}
        invariant todo <= ranked.Keys && OneOpen(rows) && OneOpen(ranked)
        invariant Partly(rows, ranked, now, todo)
      {
        var id := Take(todo);
        PartlyOneMore(rows, ranked, now, todo, id);
        if ActiveAt(ranked[id], now) {
          rows := rows[id := rows[id].(expires := if RowNumber(ranked, now, id) == 1 then None else Some(now))];
        }
        todo := todo - {id};
        PartlyIsOneOpen(rows, ranked, now, todo);
        if !OneOpen(rows) {
          return false;
        }
      }
      PartlyDone(rows, ranked, now);
      return true;
    }

    /** Its two `INSERT` statements. */
    method MapRoleless(active: set<nat>) returns (migrated: nat)
      requires Valid() && OneOpen(rows)
      modifies this
      ensures Valid() && OneOpen(rows)
      ensures Extends(roles, old(roles))
      ensures Mapped(rows, old(rows), Roleless(old(rows), active), migrated)
      ensures Roleless(old(rows), active) != {} ==> migrated in roles && roles[migrated] == MIGRATED
      ensures forall r :: r in roles && r !in old(roles) ==> roles[r] == MIGRATED
    {
      var missing := Roleless(rows, active);
      migrated := 0;
      if missing == {} {
        return;
      }
      migrated := EnsureRole();
      ghost var was, codes := rows, roles;
      var todo := missing;
      while todo != {}
        invariant todo <= missing && Valid() && OneOpen(rows) && roles == codes
        invariant Mapped(rows, was, missing - todo, migrated)
        invariant forall u :: u in todo ==> !HasOpen(rows, u)
      {
        var u := Take(todo);
        ghost var before := rows;
        ghost var id := InsertOpen(u, migrated);
        InsertingOne(before, was, missing - todo, u, migrated, id, todo);
        assert missing - (todo - {u}) == (missing - todo) + {u};
        todo := todo - {u};
      }
      assert missing - todo == missing;
    }

    /** The role is created unless its code exists. */
    method EnsureRole() returns (migrated: nat)
      requires Valid()
      modifies this`roles, this`nextRole
      ensures Valid() && Extends(roles, old(roles))
      ensures migrated in roles && roles[migrated] == MIGRATED
      ensures forall r :: r in roles && r !in old(roles) ==> r == migrated
    {
      if r :| r in roles && roles[r] == MIGRATED {
        return r;
      }
      migrated := nextRole;
      roles := roles[migrated := MIGRATED];
      nextRole := nextRole + 1;
    }

    method InsertOpen(user: nat, role: nat) returns (ghost id: nat)
      requires Valid() && role in roles
      modifies this`rows, this`nextRow
      ensures Valid() && id !in old(rows) && rows == old(rows)[id := Row(user, role, None)]
    {
      id := nextRow;
      rows := rows[nextRow := Row(user, role, None)];
      nextRow := nextRow + 1;
    }

    /** a1b2c3d4e5f7; renaming fails on `uq_roles_code` when both administrator codes exist. */
    method ToCasbin(grants: set<(nat, nat)>, permissions: Codes) returns (outcome: Result<CasbinTable, string>)
      requires Valid() && Refers(grants, roles, permissions)
      modifies this`roles
      ensures Valid()
      ensures outcome.Failure? <==> SUPER_ADMIN in old(roles).Values && LEGACY_SUPER_ADMIN in old(roles).Values
      ensures outcome.Failure? ==> roles == old(roles)
      ensures outcome.Success? ==>
        && roles == Renamed(old(roles)) && fresh(outcome.value)
        && outcome.value.rules == CopiedGrants(grants, roles, permissions) + CopiedAssignments(OpenPairs(rows), roles)
    {
      RenamedIsUnique(roles);
      if SUPER_ADMIN in roles.Values && LEGACY_SUPER_ADMIN in roles.Values {
        return Failure("uq_roles_code");
      }
      roles := Renamed(roles);
      var table := FillTable(grants, OpenPairs(rows), roles, permissions);
      return Success(table);
    }

    /**
     Main result. From any table the four revisions run through: both unique indexes can be
     built, the multi-role abort does not fire, and each user ends with exactly the role the
     first active row gave, or the role without permissions, or none.
     */
    method MigrateAll(now1: int, now2: int, active: set<nat>, grants: set<(nat, nat)>, permissions: Codes)
      returns (outcome: Result<CasbinTable, string>)
      requires Valid() && now1 <= now2 && Refers(grants, roles, permissions)
      requires forall r :: r in roles ==> PlainCode(roles[r])
      modifies this
      ensures outcome.Failure? <==> SUPER_ADMIN in old(roles).Values && LEGACY_SUPER_ADMIN in old(roles).Values
      ensures outcome.Success? ==>
        && MultiRoleUsers(outcome.value.rules) == {}
        && forall u: nat :: RolesOf(outcome.value.rules, u) == old(FinalRoles(rows, roles, active, now1, now2, u))
      ensures outcome.Success? ==>
        forall r: nat, p: nat :: (r, p) in grants ==>
          Grant(Subject(Renamed(old(roles))[r]), Split(permissions[p]).0, Split(permissions[p]).1) in outcome.value.rules
    {
      ghost var was, wasRoles := rows, roles;
      var built := KeepEarliest(now1);
      var ok := NormalizeAll(now2);
      var migrated := MapRoleless(active);
      ghost var codes := roles;
      outcome := ToCasbin(grants, permissions);
      if outcome.Failure? {
        return;
      }
      var table := outcome.value;
      ghost var others := CopiedGrants(grants, roles, permissions);
      OneOpenOneLink(rows, roles, others);
      PlainNames(codes, wasRoles);
      CopyIsTidy(rows, roles, grants, permissions);
      var flattened := table.Upgrade();
      NothingToFlatten(rows, roles, others, flattened.value);
      forall u: nat
        ensures RolesOf(table.rules, u) == FinalRoles(was, wasRoles, active, now1, now2, u)
      {
        RolesOfCopy(rows, roles, others, u);
        OpenRolesAreFinal(rows, was, codes, wasRoles, active, migrated, now1, now2, u);
      }
      GrantsAreCopied(grants, roles, permissions);
    }
  }

  /** One more user mapped, on a fresh row. */
  lemma InsertingOne(before: Rows, was: Rows, done: set<nat>, user: nat, role: nat, id: nat, todo: set<nat>)
    requires OneOpen(before) && Mapped(before, was, done, role) && id !in before && user in todo
    requires forall u :: u in todo ==> !HasOpen(before, u)
    ensures var after := before[id := Row(user, role, None)];
      && OneOpen(after) && Mapped(after, was, done + {user}, role)
      && forall u :: u in todo && u != user ==> !HasOpen(after, u)
  {
    var after := before[id := Row(user, role, None)];
    forall u | u in done
      ensures HasOpen(after, u)
    {
      var i :| i in before && before[i].user == u && before[i].expires.None?;
      assert after[i] == before[i];
    }
    assert after[id] == Row(user, role, None);
    forall i | i in before && before[i].expires.None?
      ensures before[i].user != user
    {
      assert !HasOpen(before, user);
    }
    forall u | u in todo && u != user
      ensures !HasOpen(after, u)
    {
      assert forall i :: i in after && i != id ==> i in before && after[i] == before[i];
    }
  }

  lemma PlainNames(codes: Codes, was: Codes)
    requires forall r :: r in was ==> PlainCode(was[r])
    requires forall r :: r in codes ==> codes[r] == MIGRATED || (r in was && codes[r] == was[r])
    ensures forall r :: r in codes ==> PlainCode(Renamed(codes)[r])
  {
    assert SUPER_ADMIN[0] == 'S' && MIGRATED[0] == 'M';
  }

  lemma CopyIsTidy(rows: Rows, roles: Codes, grants: set<(nat, nat)>, permissions: Codes)
    requires KnowsRoles(rows, roles) && Refers(grants, roles, permissions)
    requires forall r :: r in roles ==> PlainCode(roles[r])
    ensures Tidy(CopiedGrants(grants, roles, permissions) + CopiedAssignments(OpenPairs(rows), roles))
  {
    assert SUPER_ADMIN[0] == 'S';
    assert PlainCode(SUPER_ADMIN) && Wildcard.subject == Subject(SUPER_ADMIN);
    assert forall u: nat :: !IsRole(UserSubject(u)) by {
      assert forall u: nat :: UserSubject(u)[0] == 'u';
    }
  }

  /** Only users are linked yet, so the last revision leaves the table as it is. */
  lemma NothingToFlatten(rows: Rows, roles: Codes, others: set<Rule>, parentOf: map<string, string>)
    requires KnowsRoles(rows, roles) && forall x :: x in others ==> x.Grant?
    requires Records(others + CopiedAssignments(OpenPairs(rows), roles), parentOf)
    ensures Flatten(others + CopiedAssignments(OpenPairs(rows), roles), parentOf) == others + CopiedAssignments(OpenPairs(rows), roles)
  {
    var table := others + CopiedAssignments(OpenPairs(rows), roles);
    assert forall x :: x in table && x.Link? ==> x.member[0] == 'u';
    assert forall x :: x in table && x.Link? ==> !IsRole(x.member);
    assert forall m :: IsRole(m) ==> forall role :: Link(m, role) !in table;
    assert forall m :: m !in parentOf;
    assert Copies(table, parentOf, parentOf.Keys) == {};
  }

  lemma GrantsAreCopied(grants: set<(nat, nat)>, roles: Codes, permissions: Codes)
    requires Refers(grants, roles, permissions)
    ensures forall r: nat, p: nat :: (r, p) in grants ==>
      Grant(Subject(roles[r]), Split(permissions[p]).0, Split(permissions[p]).1) in CopiedGrants(grants, roles, permissions)
  {
    forall r: nat, p: nat | (r, p) in grants
      ensures Grant(Subject(roles[r]), Split(permissions[p]).0, Split(permissions[p]).1) in CopiedGrants(grants, roles, permissions)
    {
      assert Copy((r, p), roles, permissions) in Copied(grants, roles, permissions);
    }
  }
}