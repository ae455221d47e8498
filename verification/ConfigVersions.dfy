/**
 The life of a configuration version: draft, published, retired.

 The table has a guard trigger on updates and deletes, a unique index on the published row, a
 unique version number, and a foreign key to the source version with ON DELETE SET NULL; that
 action is itself an update and meets the guard. Transactions follow one another.
 */
module ConfigVersions {
  import opened Wrappers
  import opened Collections

  datatype Version = Version(
    versionNo: int,
    status: string,
    scope: string,
    origin: string,
    changeNote: Option<string>,
    snapshot: string,
    schemaVersion: int,
    contentHash: Option<string>,
    source: Option<nat>,
    publishedAt: Option<int>,
    publishedBy: Option<nat>,
    activatedAt: Option<int>,
    activatedBy: Option<nat>,
    updatedAt: int)

  type Versions = map<nat, Version>

  const DRAFT: string := "DRAFT"
  const PUBLISHED: string := "PUBLISHED"

  predicate Frozen(v: Version) {
    v.status != DRAFT
  }

  /** The columns the guard compares. */
  predicate SameSnapshot(v: Version, w: Version) {
    && v.versionNo == w.versionNo && v.scope == w.scope && v.origin == w.origin && v.changeNote == w.changeNote
    && v.snapshot == w.snapshot && v.schemaVersion == w.schemaVersion && v.contentHash == w.contentHash
    && v.source == w.source && v.publishedAt == w.publishedAt && v.publishedBy == w.publishedBy
  }

  // ---------------------------------------------------------------------------------------
  // Statements
  // ---------------------------------------------------------------------------------------

  datatype Error = CannotDelete | Immutable | Duplicate | NoSuchSource

  datatype Statement =
    | Insert(id: nat, row: Version)
    | Update(id: nat, row: Version)
    | Delete(id: nat)

  /** `fn_guard_configuration_version` on an update */
  predicate GuardAllows(old_: Version, new_: Version, purge: bool) {
    purge || !Frozen(old_) || SameSnapshot(old_, new_)
  }

  /** Primary key aside, the constraints on one row against the others. */
  predicate Fits(s: Versions, id: nat, row: Version) {
    forall j :: j in s && j != id ==> s[j].versionNo != row.versionNo && !(s[j].status == PUBLISHED && row.status == PUBLISHED)
  }

  function Put(s: Versions, id: nat, row: Version): Result<Versions, Error> {
    if !Fits(s, id, row) then Failure(Duplicate)
    else if row.source.Some? && row.source.value != id && row.source.value !in s then Failure(NoSuchSource)
    else Success(s[id := row])
  }

  /** The rows that name the version as their source. */
  function Derived(s: Versions, id: nat): set<nat> {
    set j | j in s && j != id && s[j].source == Some(id)
  }

  function Detached(s: Versions, id: nat): Versions {
    map j | j in s && j != id :: if s[j].source == Some(id) then s[j].(source := None) else s[j]
  }

  function Execute(s: Versions, statement: Statement, purge: bool): Result<Versions, Error> {
    match statement
    case Insert(id, row) => if id in s then Failure(Duplicate) else Put(s, id, row)
    case Update(id, row) =>
      if id !in s then Success(s)
      else if !GuardAllows(s[id], row, purge) then Failure(Immutable)
      else Put(s, id, row)
    case Delete(id) =>
      if id !in s then Success(s)
      else if !purge && Frozen(s[id]) then Failure(CannotDelete)
      else if !purge && exists j :: j in Derived(s, id) && Frozen(s[j]) then Failure(Immutable)
      else Success(Detached(s, id))
  }

  function ExecuteAll(s: Versions, statements: seq<Statement>, purge: bool): Result<Versions, Error>
    decreases |statements|
  {
    if statements == [] then Success(s)
    else
      match Execute(s, statements[0], purge)
      case Failure(error) => Failure(error)
      case Success(t) => ExecuteAll(t, statements[1..], purge)
  }

  /** A transaction commits as a whole or leaves the table as it was. */
  datatype Transaction = Transaction(statements: seq<Statement>, purge: bool)

  function Commit(s: Versions, txn: Transaction): Versions {
    var outcome := ExecuteAll(s, txn.statements, txn.purge);
    if outcome.Success? then outcome.value else s
  }

  function Run(s: Versions, txns: seq<Transaction>): Versions
    decreases |txns|
  {
    if txns == [] then s else Run(Commit(s, txns[0]), txns[1..])
  }

  // ---------------------------------------------------------------------------------------
  // Constraints
  // ---------------------------------------------------------------------------------------

  /** Version numbers are unique, at most one version is published, and every source exists. */
  ghost predicate Consistent(s: Versions) {
    && (forall id :: id in s ==> Fits(s, id, s[id]))
    && (forall id :: id in s && s[id].source.Some? ==> s[id].source.value in s)
  }

  lemma ExecuteKeepsConsistent(s: Versions, statement: Statement, purge: bool)
    requires Consistent(s) && Execute(s, statement, purge).Success?
    ensures Consistent(Execute(s, statement, purge).value)
  {
  }

  lemma {:induction false} AllKeepConsistent(s: Versions, statements: seq<Statement>, purge: bool)
    requires Consistent(s) && ExecuteAll(s, statements, purge).Success?
    ensures Consistent(ExecuteAll(s, statements, purge).value)
    decreases |statements|
  {
    if statements != [] {
      ExecuteKeepsConsistent(s, statements[0], purge);
      AllKeepConsistent(Execute(s, statements[0], purge).value, statements[1..], purge);
    }
  }

  /** Over every run, purges included: one published version at most, and no dangling source. */
  lemma {:induction false} AlwaysConsistent(s: Versions, txns: seq<Transaction>)
    requires Consistent(s)
    ensures Consistent(Run(s, txns))
    decreases |txns|
  {
    if txns != [] {
      if ExecuteAll(s, txns[0].statements, txns[0].purge).Success? {
        AllKeepConsistent(s, txns[0].statements, txns[0].purge);
      }
      AlwaysConsistent(Commit(s, txns[0]), txns[1..]);
    }
  }

  lemma OnePublished(s: Versions, txns: seq<Transaction>, i: nat, j: nat)
    requires Consistent(s) && i in Run(s, txns) && j in Run(s, txns)
    requires Run(s, txns)[i].status == PUBLISHED && Run(s, txns)[j].status == PUBLISHED
    ensures i == j
  {
    AlwaysConsistent(s, txns);
  }

  // ---------------------------------------------------------------------------------------
  // Frozen versions
  // ---------------------------------------------------------------------------------------

  /** The version is there, not a draft, and its snapshot, hash and lineage are as they were. */
  predicate Kept(s: Versions, id: nat, was: Version) {
    id in s && Frozen(s[id]) && SameSnapshot(s[id], was)
  }

  /** No statement of the transaction moves this version back to draft. */
  ghost predicate NeverReopens(statements: seq<Statement>, id: nat) {
    forall i :: 0 <= i < |statements| && statements[i].Update? && statements[i].id == id ==> statements[i].row.status != DRAFT
  }

  ghost predicate Ordinary(txns: seq<Transaction>, id: nat) {
    forall i :: 0 <= i < |txns| ==> !txns[i].purge && NeverReopens(txns[i].statements, id)
  }

  lemma ExecuteKeepsFrozen(s: Versions, statement: Statement, id: nat, was: Version)
    requires Kept(s, id, was) && Execute(s, statement, false).Success?
    requires statement.Update? && statement.id == id ==> statement.row.status != DRAFT
    ensures Kept(Execute(s, statement, false).value, id, was)
  {
    if statement.Delete? {
      assert s[id].source == Some(statement.id) && id != statement.id ==> id in Derived(s, statement.id);
    }
  }

  lemma {:induction false} AllKeepFrozen(s: Versions, statements: seq<Statement>, id: nat, was: Version)
    requires Kept(s, id, was) && NeverReopens(statements, id) && ExecuteAll(s, statements, false).Success?
    ensures Kept(ExecuteAll(s, statements, false).value, id, was)
    decreases |statements|
  {
    if statements != [] {
      ExecuteKeepsFrozen(s, statements[0], id, was);
      assert forall i :: 0 <= i < |statements[1..]| ==> statements[1..][i] == statements[i + 1];
      AllKeepFrozen(Execute(s, statements[0], false).value, statements[1..], id, was);
    }
  }

  /**
   Main result: over every run without purge that never moves this version back to draft, it
   stays, stays frozen, and keeps its number, snapshot, hash and lineage.
   */
  lemma {:induction false} FrozenForever(s: Versions, txns: seq<Transaction>, id: nat, was: Version)
    requires Kept(s, id, was) && Ordinary(txns, id)
    ensures Kept(Run(s, txns), id, was)
    decreases |txns|
  {
    if txns != [] {
      var txn := txns[0];
      assert !txn.purge && NeverReopens(txn.statements, id);
      if ExecuteAll(s, txn.statements, false).Success? {
        AllKeepFrozen(s, txn.statements, id, was);
      }
      assert forall i :: 0 <= i < |txns[1..]| ==> txns[1..][i] == txns[i + 1];
      FrozenForever(Commit(s, txn), txns[1..], id, was);
    }
  }

  /** The version a frozen one was made from can never be lost, draft or not. */
  lemma SourceNeverLost(s: Versions, txns: seq<Transaction>, id: nat)
    requires Consistent(s) && id in s && Frozen(s[id]) && s[id].source.Some? && Ordinary(txns, id)
    ensures id in Run(s, txns) && Run(s, txns)[id].source == s[id].source && s[id].source.value in Run(s, txns)
  {
    FrozenForever(s, txns, id, s[id]);
    AlwaysConsistent(s, txns);
  }

  /** Outside a purge a version can be deleted exactly when it is a draft no frozen version names. */
  lemma DeletableIff(s: Versions, id: nat)
    requires id in s
    ensures Execute(s, Delete(id), false).Success? <==>
            !Frozen(s[id]) && forall j :: j in s && s[j].source == Some(id) ==> !Frozen(s[j])
  {
    if !Frozen(s[id]) {
      assert forall j :: j in s && s[j].source == Some(id) && Frozen(s[j]) ==> j in Derived(s, id);
    }
  }

  /**
   A frozen row can be updated if and only if the change is confined to the status, the activation
   and the update stamp, and the status becomes PUBLISHED only while no other row has it. So a
   retired version can be activated again; the status may also become draft again.
   */
  lemma FrozenUpdateIff(s: Versions, id: nat, row: Version)
    requires Consistent(s) && id in s && Frozen(s[id])
    ensures Execute(s, Update(id, row), false).Success? <==>
            && row == s[id].(status := row.status, activatedAt := row.activatedAt, activatedBy := row.activatedBy, updatedAt := row.updatedAt)
            && (row.status == PUBLISHED ==> forall j :: j in s && j != id ==> s[j].status != PUBLISHED)
  {
    assert Fits(s, id, s[id]);
  }

  /** A successful statement keeps a frozen version if and only if it does not move it back to draft. */
  lemma StatementKeepsFrozenIff(s: Versions, statement: Statement, id: nat)
    requires id in s && Frozen(s[id]) && Execute(s, statement, false).Success?
    ensures Kept(Execute(s, statement, false).value, id, s[id]) <==>
            !(statement.Update? && statement.id == id && statement.row.status == DRAFT)
  {
    if !(statement.Update? && statement.id == id && statement.row.status == DRAFT) {
      ExecuteKeepsFrozen(s, statement, id, s[id]);
    }
  }

  /** What a successful delete leaves: every other row as it was, but for the source it has lost. */
  lemma DeletedExactly(s: Versions, id: nat, purge: bool, j: nat)
    requires id in s && Execute(s, Delete(id), purge).Success?
    ensures var t := Execute(s, Delete(id), purge).value;
      && (j in t <==> j in s && j != id)
      && (j in t && s[j].source != Some(id) ==> t[j] == s[j])
      && (j in t && s[j].source == Some(id) ==> t[j] == s[j].(source := None))
  {
  }

  /** No other row has the number. */
  ghost predicate NumberFree(s: Versions, id: nat, n: int) {
    forall j :: j in s && j != id ==> s[j].versionNo != n
  }

  ghost predicate NoOtherPublished(s: Versions, id: nat) {
    forall j :: j in s && j != id ==> s[j].status != "PUBLISHED"
  }

  /** When a row can be stored, by insert or by an update the guard leaves alone, and what is stored then. */
  lemma StoredIff(s: Versions, statement: Statement, purge: bool)
    requires statement.Insert? || (statement.Update? && statement.id in s && (purge || s[statement.id].status == "DRAFT"))
    ensures
      var row, id := statement.row, statement.id;
      && (Execute(s, statement, purge).Success? <==>
          && (statement.Insert? ==> id !in s)
          && NumberFree(s, id, row.versionNo) && (row.status == "PUBLISHED" ==> NoOtherPublished(s, id))
          && (row.source.Some? ==> row.source.value == id || row.source.value in s))
      && (Execute(s, statement, purge).Success? ==> Execute(s, statement, purge).value == s[id := row])
  {
    var row, id := statement.row, statement.id;
    if NumberFree(s, id, row.versionNo) && (row.status == "PUBLISHED" ==> NoOtherPublished(s, id)) {
      assert Fits(s, id, row);
    }
  }

  /** The purge hatch lifts the guard on deletes, and a missing row is neither deleted nor updated. */
  lemma UnguardedDelete(s: Versions, statement: Statement, purge: bool)
    ensures statement.Delete? && purge ==> Execute(s, statement, true).Success?
    ensures !statement.Insert? && statement.id !in s ==> Execute(s, statement, purge) == Success(s)
  {
  }

  /** Over every run two rows with one number are the same row. */
  lemma NumbersAreUnique(s: Versions, txns: seq<Transaction>, i: nat, j: nat)
    requires Consistent(s) && i in Run(s, txns) && j in Run(s, txns)
    requires Run(s, txns)[i].versionNo == Run(s, txns)[j].versionNo
    ensures i == j
  {
    AlwaysConsistent(s, txns);
  }

  /** Any frozen snapshot can be rewritten in two updates, by way of the draft status. */
  lemma ReopeningUnfreezes(s: Versions, id: nat, snapshot: string)
    requires Consistent(s) && id in s && Frozen(s[id])
    ensures
      var rewrite := [Update(id, s[id].(status := DRAFT)), Update(id, s[id].(snapshot := snapshot))];
      Run(s, [Transaction(rewrite, false)]) == s[id := s[id].(snapshot := snapshot)]
  {
    var first, second := Update(id, s[id].(status := DRAFT)), Update(id, s[id].(snapshot := snapshot));
    var s1 := s[id := s[id].(status := DRAFT)];
    assert Fits(s, id, s[id]);
    assert Execute(s, first, false) == Success(s1);
    assert s1[id := s[id].(snapshot := snapshot)] == s[id := s[id].(snapshot := snapshot)];
    assert Execute(s1, second, false) == Success(s[id := s[id].(snapshot := snapshot)]);
    assert [first, second][1..] == [second] && [second][1..] == [];
    assert ExecuteAll(s1, [second], false) == Execute(s1, second, false);
    var txn := Transaction([first, second], false);
    assert [txn][1..] == [];
    assert Run(s, [txn]) == Run(Commit(s, txn), []);
  }

  // ---------------------------------------------------------------------------------------
  // The table
  // ---------------------------------------------------------------------------------------

  class Table {
    var versions: Versions

    constructor ()
      ensures versions == map[]
    {
      versions := map[];
    }

    method InsertRow(id: nat, row: Version) returns (outcome: Result<(), Error>)
      modifies this
      ensures Outcome(outcome, old(versions), Insert(id, row), false)
    {
      if id in versions {
        return Failure(Duplicate);
      }
      outcome := Store(id, row);
    }

    /** The row passes the guard, then the constraints. */
    method UpdateRow(id: nat, row: Version, purge: bool) returns (outcome: Result<(), Error>)
      modifies this
      ensures Outcome(outcome, old(versions), Update(id, row), purge)
    {
      if id !in versions {
        return Success(());
      }
      var old_ := versions[id];
      if !purge && old_.status != DRAFT && !SameSnapshot(old_, row) {
        return Failure(Immutable);
      }
      outcome := Store(id, row);
    }

    /** The guard, the deletion, and the foreign key's updates of the rows derived from it. */
    method DeleteRow(id: nat, purge: bool) returns (outcome: Result<(), Error>)
      modifies this
      ensures Outcome(outcome, old(versions), Delete(id), purge)
    {
      if id !in versions {
        return Success(());
      }
      if !purge && versions[id].status != DRAFT {
        return Failure(CannotDelete);
      }
      ghost var was := versions;
      var before := versions;
      var todo := Derived(versions, id);
      versions := versions - {id};
      while todo != {}
        invariant todo <= Derived(was, id) && before == was
        invariant versions.Keys == was.Keys - {id}
        invariant forall j :: j in versions ==> versions[j] == if j in todo then was[j] else Detached(was, id)[j]
        invariant purge || forall j :: j in Derived(was, id) && j !in todo ==> !Frozen(was[j])
      {
        var j := Take(todo);
        var detached := versions[j].(source := None);
        if !GuardAllows(versions[j], detached, purge) {
          versions := before;
          return Failure(Immutable);
        }
        versions := versions[j := detached];
        todo := todo - {j};
      }
      assert versions == Detached(was, id);
      return Success(());
    }

    method Store(id: nat, row: Version) returns (outcome: Result<(), Error>)
      modifies this
      ensures outcome.Success? <==> Put(old(versions), id, row).Success?
      ensures outcome.Success? ==> versions == Put(old(versions), id, row).value
      ensures outcome.Failure? ==> versions == old(versions) && outcome.error == Put(old(versions), id, row).error
    {
      if !Fits(versions, id, row) {
        return Failure(Duplicate);
      }
      if row.source.Some? && row.source.value != id && row.source.value !in versions {
        return Failure(NoSuchSource);
      }
      versions := versions[id := row];
      return Success(());
    }

    /** The table and the report are those of the statement; a failed one leaves no trace. */
    ghost predicate Outcome(outcome: Result<(), Error>, was: Versions, statement: Statement, purge: bool)
      reads this
    {
      match Execute(was, statement, purge)
      case Success(t) => outcome.Success? && versions == t
      case Failure(error) => outcome == Failure(error) && versions == was
    }

    /** One transaction: the statements in order, up to the first failure. */
    method Transact(txn: Transaction) returns (outcome: Result<(), Error>)
      modifies this
      ensures versions == Commit(old(versions), txn)
      ensures outcome.Success? <==> ExecuteAll(old(versions), txn.statements, txn.purge).Success?
    {
      var before := versions;
      var i := 0;
      while i < |txn.statements|
        invariant i <= |txn.statements| && before == old(versions)
        invariant ExecuteAll(versions, txn.statements[i..], txn.purge) == ExecuteAll(old(versions), txn.statements, txn.purge)
      {
        assert txn.statements[i..][1..] == txn.statements[i + 1..];
        outcome := Perform(txn.statements[i], txn.purge);
        if outcome.Failure? {
          versions := before;
          return;
        }
        i := i + 1;
      }
      return Success(());
    }

    method Perform(statement: Statement, purge: bool) returns (outcome: Result<(), Error>)
      modifies this
      ensures Outcome(outcome, old(versions), statement, purge)
    {
      match statement
      case Insert(id, row) => outcome := InsertRow(id, row);
      case Update(id, row) => outcome := UpdateRow(id, row, purge);
      case Delete(id) => outcome := DeleteRow(id, purge);
    }
  }
}
