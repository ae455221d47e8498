/**
 The journal guards: row triggers on journals and lines, the balance check deferred to COMMIT,
 the append-only audit table and the purge hatch of the administrative reset.

 A session is the committed tables, the tables as the open transaction sees them, and the queue
 of deferred checks. Transactions follow one another here; `LedgerSessions` runs them concurrently.
 Amounts are integers in units of 0.0001 (`NUMERIC(19,4)`).
 */
module Ledger {
  import opened Sums
  import opened Wrappers

  datatype Status = Posted | Unposted(name: string)

  /** `other` stands for all columns the guards never look at one by one. */
  datatype Journal = Journal(status: Status, entryDate: int, period: Option<int>, other: string, updatedAt: int)

  datatype Line = Line(journal: int, account: int, debit: int, credit: int, other: string)

  datatype Period = Period(start: int, end: int, open: bool)

  datatype Tables = Tables(
    journals: map<int, Journal>,
    lines: map<int, Line>,
    periods: map<int, Period>,
    audit: map<int, string>)

  /** A queued `trg_journal_post_check`: the row as it was written, and what it replaced. */
  datatype Check = Check(id: int, inserted: bool, wasPosted: bool, row: Journal)

  datatype Session = Session(committed: Tables, work: Tables, pending: seq<Check>, purge: bool, failed: bool)

  datatype Statement =
    | InsertJournal(id: int, row: Journal)
    | UpdateJournal(id: int, row: Journal, setsStatus: bool, now: int)
    | DeleteJournal(id: int)
    | InsertLine(id: int, line: Line)
    | UpdateLine(id: int, line: Line)
    | DeleteLine(id: int)
    | PutPeriod(id: int, period: Period)
    | DropPeriod(id: int)
    | InsertAudit(id: int, event: string)
    | UpdateAudit(id: int, event: string)
    | DeleteAudit(id: int)
    | SetPurge
    | Commit
    | Rollback
    | ResetAll

  // ---------------------------------------------------------------------------------------
  // Trigger functions
  // ---------------------------------------------------------------------------------------

  /** `fn_guard_journal_entry` on UPDATE raises an exception. */
  predicate JournalUpdateRefused(purge: bool, was: Journal, row: Journal) {
    !purge && was.status.Posted? && row != was
  }

  /** `fn_guard_journal_entry` on DELETE raises an exception. */
  predicate JournalDeleteRefused(purge: bool, was: Journal) {
    !purge && was.status.Posted?
  }

  /** `fn_guard_journal_line` raises because the line's journal is posted. A missing journal passes. */
  predicate LineRefused(t: Tables, purge: bool, journal: int) {
    !purge && journal in t.journals && t.journals[journal].status.Posted?
  }

  function LinesOf(lines: map<int, Line>, journal: int): map<int, Line> {
    map i | i in lines && lines[i].journal == journal :: lines[i]
  }

  function Debits(lines: map<int, Line>): map<int, int> {
    map i | i in lines :: lines[i].debit
  }

  function Credits(lines: map<int, Line>): map<int, int> {
    map i | i in lines :: lines[i].credit
  }

  /** At least two lines, equal debit and credit, and something posted at all. */
  ghost predicate Balanced(lines: map<int, Line>, journal: int) {
    var own := LinesOf(lines, journal);
    2 <= |own| && 0 < Total(Debits(own)) == Total(Credits(own))
  }

  predicate InOpenPeriod(periods: map<int, Period>, row: Journal) {
    && row.period.Some? && row.period.value in periods
    && periods[row.period.value].open
    && periods[row.period.value].start <= row.entryDate <= periods[row.period.value].end
  }

  /** The check has nothing to say: the row is not posted, or it was posted before. */
  predicate Skipped(purge: bool, c: Check) {
    purge || !c.row.status.Posted? || (!c.inserted && c.wasPosted)
  }

  /** `fn_validate_journal_post` lets the row through. */
  ghost predicate Passes(t: Tables, purge: bool, c: Check) {
    Skipped(purge, c) || (InOpenPeriod(t.periods, c.row) && Balanced(t.lines, c.id))
  }

  // ---------------------------------------------------------------------------------------
  // One statement
  // ---------------------------------------------------------------------------------------

  function Fail(s: Session): Session {
    s.(failed := true)
  }

  /** The next transaction starts from what is committed. */
  function Fresh(committed: Tables): Session {
    Session(committed, committed, [], false, false)
  }

  predicate PeriodExists(t: Tables, row: Journal) {
    row.period.Some? ==> row.period.value in t.periods
  }

  function WithJournal(s: Session, id: int, row: Journal, checks: seq<Check>): Session {
    s.(work := s.work.(journals := s.work.journals[id := row]), pending := s.pending + checks)
  }

  function WithLines(s: Session, lines: map<int, Line>): Session {
    s.(work := s.work.(lines := lines))
  }

  function WithAudit(s: Session, audit: map<int, string>): Session {
    s.(work := s.work.(audit := audit))
  }

  /** The row an UPDATE asks for: without SET status the status stays. */
  function Requested(was: Journal, row: Journal, setsStatus: bool): Journal {
    if setsStatus then row else row.(status := was.status)
  }

  function DoUpdateJournal(s: Session, id: int, row: Journal, setsStatus: bool, now: int): Session {
    if id !in s.work.journals then s
    else
      var was := s.work.journals[id];
      var asked := Requested(was, row, setsStatus);
      if JournalUpdateRefused(s.purge, was, asked) || !PeriodExists(s.work, asked) then Fail(s)
      else
        // fn_touch_updated_at runs after the guard.
        var stored := asked.(updatedAt := now);
        WithJournal(s, id, stored, if setsStatus then [Check(id, false, was.status.Posted?, stored)] else [])
  }

  function DoDeleteJournal(s: Session, id: int): Session {
    if id !in s.work.journals then s
    else if JournalDeleteRefused(s.purge, s.work.journals[id]) then Fail(s)
    else
      // ON DELETE CASCADE: the lines follow once the journal is gone.
      s.(work := s.work.(journals := s.work.journals - {id},
                         lines := s.work.lines - LinesOf(s.work.lines, id).Keys))
  }

  function DoUpdateLine(s: Session, id: int, line: Line): Session {
    if id !in s.work.lines then s
    else if LineRefused(s.work, s.purge, line.journal) then Fail(s)
    else if line.journal !in s.work.journals then Fail(s)                      // foreign key
    else if !s.purge && line.journal != s.work.lines[id].journal then Fail(s)  // moved
    else WithLines(s, s.work.lines[id := line])
  }

  ghost function Next(s: Session, st: Statement): Session {
    if st.Rollback? then Fresh(s.committed)
    else if st.Commit? then
      if !s.failed && forall c :: c in s.pending ==> Passes(s.work, s.purge, c) then Fresh(s.work) else Fresh(s.committed)
    else if st.ResetAll? then
      if s.failed then Fresh(s.committed) else Fresh(Tables(map[], map[], map[], s.work.audit))
    else if s.failed then s
    else
      match st
      case InsertJournal(id, row) =>
        if id in s.work.journals || !PeriodExists(s.work, row) then Fail(s)
        else WithJournal(s, id, row, [Check(id, true, false, row)])
      case UpdateJournal(id, row, setsStatus, now) => DoUpdateJournal(s, id, row, setsStatus, now)
      case DeleteJournal(id) => DoDeleteJournal(s, id)
      case InsertLine(id, line) =>
        if LineRefused(s.work, s.purge, line.journal) || line.journal !in s.work.journals || id in s.work.lines then Fail(s)
        else WithLines(s, s.work.lines[id := line])
      case UpdateLine(id, line) => DoUpdateLine(s, id, line)
      case DeleteLine(id) =>
        if id !in s.work.lines then s
        else if LineRefused(s.work, s.purge, s.work.lines[id].journal) then Fail(s)
        else WithLines(s, s.work.lines - {id})
      case PutPeriod(id, period) => s.(work := s.work.(periods := s.work.periods[id := period]))
      case DropPeriod(id) =>
        if exists j :: j in s.work.journals && s.work.journals[j].period == Some(id) then Fail(s)
        else s.(work := s.work.(periods := s.work.periods - {id}))
      case InsertAudit(id, event) =>
        if id in s.work.audit then Fail(s) else WithAudit(s, s.work.audit[id := event])
      case UpdateAudit(id, event) => if id in s.work.audit then Fail(s) else s
      case DeleteAudit(id) => if id in s.work.audit then Fail(s) else s
      case SetPurge => s.(purge := true)
  }

  ghost function Run(s: Session, sts: seq<Statement>): Session
    decreases |sts|
  {
    if sts == [] then s else Run(Next(s, sts[0]), sts[1..])
  }

  // ---------------------------------------------------------------------------------------
  // Invariant
  // ---------------------------------------------------------------------------------------

  ghost predicate LinesHaveJournals(t: Tables) {
    forall i :: i in t.lines ==> t.lines[i].journal in t.journals
  }

  predicate IsPosted(t: Tables, j: int) {
    j in t.journals && t.journals[j].status.Posted?
  }

  ghost predicate AllPostedBalanced(t: Tables) {
    forall j :: IsPosted(t, j) ==> Balanced(t.lines, j)
  }

  /** The same journal with the same lines; only `updated_at` may differ. */
  ghost predicate SameEntry(t: Tables, u: Tables, j: int) {
    && j in t.journals && j in u.journals
    && u.journals[j] == t.journals[j].(updatedAt := u.journals[j].updatedAt)
    && LinesOf(u.lines, j) == LinesOf(t.lines, j)
  }

  predicate Decisive(c: Check) {
    c.row.status.Posted? && (c.inserted || !c.wasPosted)
  }

  /** The posting of `j` still waits for its deferred check. */
  ghost predicate Queued(s: Session, j: int)
    requires j in s.work.journals
  {
    exists c :: c in s.pending && c.id == j && Decisive(c)
                && c.row.entryDate == s.work.journals[j].entryDate && c.row.period == s.work.journals[j].period
  }

  /** A journal inserted as POSTED is stuck without lines. */
  ghost predicate InsertedPostedEmpty(s: Session) {
    forall c :: c in s.pending && c.inserted && c.row.status.Posted? ==>
      IsPosted(s.work, c.id) && LinesOf(s.work.lines, c.id) == map[]
  }

  ghost predicate Inv(s: Session) {
    && !s.purge
    && LinesHaveJournals(s.committed) && LinesHaveJournals(s.work)
    && AllPostedBalanced(s.committed)
    && (forall j :: IsPosted(s.committed, j) ==> SameEntry(s.committed, s.work, j))
    && (forall j :: IsPosted(s.work, j) ==> IsPosted(s.committed, j) || Queued(s, j))
    && InsertedPostedEmpty(s)
  }

  lemma FreshInv(t: Tables)
    requires LinesHaveJournals(t) && AllPostedBalanced(t)
    ensures Inv(Fresh(t))
  {
  }

  // ---------------------------------------------------------------------------------------
  // Every statement outside a purge keeps the invariant
  // ---------------------------------------------------------------------------------------

  /** A statement that touches neither journals nor lines. */
  lemma SideTablesKeepInv(s: Session, periods: map<int, Period>, audit: map<int, string>, failed: bool)
    requires Inv(s)
    ensures Inv(s.(work := s.work.(periods := periods, audit := audit), failed := failed))
  {
    var s' := s.(work := s.work.(periods := periods, audit := audit), failed := failed);
    forall j | IsPosted(s'.work, j)
      ensures IsPosted(s'.committed, j) || Queued(s', j)
    {
      assert IsPosted(s.work, j);
      if !IsPosted(s.committed, j) {
        assert Queued(s, j);
      }
    }
  }

  lemma InsertJournalKeepsInv(s: Session, id: int, row: Journal)
    requires Inv(s) && id !in s.work.journals
    ensures Inv(WithJournal(s, id, row, [Check(id, true, false, row)]))
  {
    var s' := WithJournal(s, id, row, [Check(id, true, false, row)]);
    PendingSuffix(s, s', [Check(id, true, false, row)]);
    assert Check(id, true, false, row) in s'.pending;
    NoLines(s.work, id);
    assert !IsPosted(s.committed, id);
  }

  lemma NoLines(t: Tables, j: int)
    requires LinesHaveJournals(t) && j !in t.journals
    ensures LinesOf(t.lines, j) == map[]
  {
    var own := LinesOf(t.lines, j);
    assert forall i :: i in own ==> i in t.lines;
    assert forall i :: i !in own.Keys;
    assert own.Keys == {};
  }

  /** Rows other than those just written keep their place in the queue. */
  lemma PendingSuffix(s: Session, s': Session, checks: seq<Check>)
    requires s'.pending == s.pending + checks
    ensures forall j :: (j in s.work.journals && j in s'.work.journals && Queued(s, j)
                         && s'.work.journals[j].entryDate == s.work.journals[j].entryDate
                         && s'.work.journals[j].period == s.work.journals[j].period) ==> Queued(s', j)
    ensures forall c :: c in s'.pending ==> c in s.pending || c in checks
  {
    forall j | (j in s.work.journals && j in s'.work.journals && Queued(s, j)
                && s'.work.journals[j].entryDate == s.work.journals[j].entryDate
                && s'.work.journals[j].period == s.work.journals[j].period)
      ensures Queued(s', j)
    {
      var c :| c in s.pending && c.id == j && Decisive(c)
               && c.row.entryDate == s.work.journals[j].entryDate && c.row.period == s.work.journals[j].period;
      assert c in s'.pending;
    }
  }

  lemma UpdateJournalKeepsInv(s: Session, id: int, row: Journal, setsStatus: bool, now: int)
    requires Inv(s)
    ensures Inv(DoUpdateJournal(s, id, row, setsStatus, now))
  {
    var s' := DoUpdateJournal(s, id, row, setsStatus, now);
    if s' == Fail(s) {
      SideTablesKeepInv(s, s.work.periods, s.work.audit, true);
    } else if s' != s {
      var was := s.work.journals[id];
      var stored := Requested(was, row, setsStatus).(updatedAt := now);
      var checks := if setsStatus then [Check(id, false, was.status.Posted?, stored)] else [];
      PendingSuffix(s, s', checks);
      if was.status.Posted? {
        assert stored == was.(updatedAt := now);
      } else {
        assert !IsPosted(s.committed, id);
        if stored.status.Posted? {
          assert Check(id, false, false, stored) in s'.pending;
          assert Queued(s', id);
        }
      }
      forall j | IsPosted(s'.work, j)
        ensures IsPosted(s'.committed, j) || Queued(s', j)
      {
        assert j != id ==> IsPosted(s.work, j);
      }
      forall c | c in s'.pending && c.inserted && c.row.status.Posted?
        ensures IsPosted(s'.work, c.id) && LinesOf(s'.work.lines, c.id) == map[]
      {
        assert c in s.pending;
      }
    }
  }

  lemma DeleteJournalKeepsInv(s: Session, id: int)
    requires Inv(s)
    ensures Inv(DoDeleteJournal(s, id))
  {
    var s' := DoDeleteJournal(s, id);
    if s' == Fail(s) {
      SideTablesKeepInv(s, s.work.periods, s.work.audit, true);
    } else if s' != s {
      PendingSuffix(s, s', []);
      forall j | j != id
        ensures LinesOf(s'.work.lines, j) == LinesOf(s.work.lines, j)
      {
      }
      assert !IsPosted(s.committed, id);
      forall j | IsPosted(s'.work, j)
        ensures IsPosted(s'.committed, j) || Queued(s', j)
      {
        assert IsPosted(s.work, j);
      }
    }
  }

  /** New line table: every journal whose lines differ is a draft in the open transaction. */
  lemma LinesKeepInv(s: Session, lines: map<int, Line>, journal: int)
    requires Inv(s) && !IsPosted(s.work, journal)
    requires forall i :: i in lines ==> lines[i].journal in s.work.journals
    requires forall j :: j != journal ==> LinesOf(lines, j) == LinesOf(s.work.lines, j)
    ensures Inv(WithLines(s, lines))
  {
    var s' := WithLines(s, lines);
    PendingSuffix(s, s', []);
    assert !IsPosted(s.committed, journal);
    forall j | IsPosted(s'.work, j)
      ensures IsPosted(s'.committed, j) || Queued(s', j)
    {
      assert IsPosted(s.work, j);
    }
  }

  lemma LineStatementsKeepInv(s: Session, st: Statement)
    requires Inv(s) && !s.failed
    requires st.InsertLine? || st.UpdateLine? || st.DeleteLine?
    ensures Inv(Next(s, st))
  {
    var s' := Next(s, st);
    if s' == Fail(s) {
      SideTablesKeepInv(s, s.work.periods, s.work.audit, true);
    } else if s' != s {
      var journal := if st.DeleteLine? then s.work.lines[st.id].journal else st.line.journal;
      var lines := s'.work.lines;
      forall j | j != journal
        ensures LinesOf(lines, j) == LinesOf(s.work.lines, j)
      {
      }
      LinesKeepInv(s, lines, journal);
      assert s' == WithLines(s, lines);
    }
  }

  /** The queued checks of an accepted commit cover every journal that was not posted before. */
  lemma AcceptedCommit(s: Session, j: int)
    requires Inv(s) && IsPosted(s.work, j)
    requires forall c :: c in s.pending ==> Passes(s.work, s.purge, c)
    ensures Balanced(s.work.lines, j)
    ensures !IsPosted(s.committed, j) ==> InOpenPeriod(s.work.periods, s.work.journals[j])
  {
    if IsPosted(s.committed, j) {
      assert SameEntry(s.committed, s.work, j);
      assert Balanced(s.committed.lines, j);
    } else {
      assert Queued(s, j);
      var c :| c in s.pending && c.id == j && Decisive(c)
               && c.row.entryDate == s.work.journals[j].entryDate && c.row.period == s.work.journals[j].period;
      assert Passes(s.work, s.purge, c);
    }
  }

  lemma CommitKeepsInv(s: Session)
    requires Inv(s)
    ensures Inv(Next(s, Commit))
  {
    if !s.failed && forall c :: c in s.pending ==> Passes(s.work, s.purge, c) {
      forall j | IsPosted(s.work, j)
        ensures Balanced(s.work.lines, j)
      {
        AcceptedCommit(s, j);
      }
      FreshInv(s.work);
    } else {
      FreshInv(s.committed);
    }
  }

  lemma NextKeepsInv(s: Session, st: Statement)
    requires Inv(s) && !st.SetPurge?
    ensures Inv(Next(s, st))
  {
    if st.Rollback? {
      FreshInv(s.committed);
    } else if st.Commit? {
      CommitKeepsInv(s);
    } else if st.ResetAll? {
      FreshInv(s.committed);
      FreshInv(Tables(map[], map[], map[], s.work.audit));
    } else if !s.failed {
      if Next(s, st) == Fail(s) {
        SideTablesKeepInv(s, s.work.periods, s.work.audit, true);
      } else {
        match st
        case InsertJournal(id, row) => InsertJournalKeepsInv(s, id, row);
        case UpdateJournal(id, row, setsStatus, now) => UpdateJournalKeepsInv(s, id, row, setsStatus, now);
        case DeleteJournal(id) => DeleteJournalKeepsInv(s, id);
        case InsertLine(_, _) => LineStatementsKeepInv(s, st);
        case UpdateLine(_, _) => LineStatementsKeepInv(s, st);
        case DeleteLine(_) => LineStatementsKeepInv(s, st);
        case PutPeriod(id, period) => SideTablesKeepInv(s, s.work.periods[id := period], s.work.audit, false);
        case DropPeriod(id) => SideTablesKeepInv(s, s.work.periods - {id}, s.work.audit, false);
        case InsertAudit(id, event) => SideTablesKeepInv(s, s.work.periods, s.work.audit[id := event], false);
        case _ =>
      }
    }
  }

  /** The purge hatch is opened by the administrative reset only. */
  ghost predicate Ordinary(sts: seq<Statement>) {
    forall st :: st in sts ==> !st.SetPurge?
  }

  lemma {:induction false} RunKeepsInv(s: Session, sts: seq<Statement>)
    requires Inv(s) && Ordinary(sts)
    ensures Inv(Run(s, sts))
    decreases |sts|
  {
    if sts != [] {
      assert sts[0] in sts;
      NextKeepsInv(s, sts[0]);
      RunKeepsInv(Next(s, sts[0]), sts[1..]);
    }
  }

  function Empty(): Session {
    Fresh(Tables(map[], map[], map[], map[]))
  }

  // ---------------------------------------------------------------------------------------
  // Main results
  // ---------------------------------------------------------------------------------------

  /**
   Every committed posted journal is balanced, after any run that opens the purge hatch only
   through the reset.
   */
  lemma PostedIsBalanced(sts: seq<Statement>, j: int)
    requires Ordinary(sts) && IsPosted(Run(Empty(), sts).committed, j)
    ensures Balanced(Run(Empty(), sts).committed.lines, j)
  {
    FreshInv(Tables(map[], map[], map[], map[]));
    RunKeepsInv(Empty(), sts);
  }

  /** A journal becomes posted only by a commit that finds its date inside an open period. */
  lemma PostedInsideOpenPeriod(sts: seq<Statement>, st: Statement, j: int)
    requires Ordinary(sts) && !st.SetPurge?
    requires !IsPosted(Run(Empty(), sts).committed, j)
    requires IsPosted(Next(Run(Empty(), sts), st).committed, j)
    ensures st == Commit
    ensures InOpenPeriod(Next(Run(Empty(), sts), st).committed.periods, Next(Run(Empty(), sts), st).committed.journals[j])
  {
    FreshInv(Tables(map[], map[], map[], map[]));
    RunKeepsInv(Empty(), sts);
    var s := Run(Empty(), sts);
    NextKeepsWork(s, st);
    AcceptedCommit(s, j);
  }

  /** Only COMMIT and the reset publish anything. */
  lemma NextKeepsWork(s: Session, st: Statement)
    ensures !st.Commit? && !st.ResetAll? ==> Next(s, st).committed == s.committed
  {
  }

  lemma NextKeepsPosted(s: Session, st: Statement, j: int)
    requires Inv(s) && !st.SetPurge? && !st.ResetAll? && IsPosted(s.committed, j)
    ensures IsPosted(Next(s, st).committed, j) && SameEntry(s.committed, Next(s, st).committed, j)
  {
    NextKeepsWork(s, st);
  }

  /** A committed posted journal and its lines never change again, `updated_at` aside. */
  lemma {:induction false} PostedIsImmutable(s: Session, sts: seq<Statement>, j: int)
    requires Inv(s) && Ordinary(sts) && ResetAll !in sts && IsPosted(s.committed, j)
    ensures IsPosted(Run(s, sts).committed, j) && SameEntry(s.committed, Run(s, sts).committed, j)
    decreases |sts|
  {
    if sts != [] {
      assert sts[0] in sts;
      NextKeepsInv(s, sts[0]);
      NextKeepsPosted(s, sts[0], j);
      PostedIsImmutable(Next(s, sts[0]), sts[1..], j);
    }
  }

  /** The same, for every state an ordinary run can reach. */
  lemma PostedIsImmutableFromAnyRun(before: seq<Statement>, after: seq<Statement>, j: int)
    requires Ordinary(before) && Ordinary(after) && ResetAll !in after
    requires IsPosted(Run(Empty(), before).committed, j)
    ensures SameEntry(Run(Empty(), before).committed, Run(Run(Empty(), before), after).committed, j)
  {
    FreshInv(Tables(map[], map[], map[], map[]));
    RunKeepsInv(Empty(), before);
    PostedIsImmutable(Run(Empty(), before), after, j);
  }

  /**
   A transaction that inserts a journal directly as POSTED cannot commit: the line guard keeps
   it without lines, and the deferred check wants two.
   */
  lemma InsertedPostedNeverCommits(s: Session, c: Check)
    requires Inv(s) && c in s.pending && c.inserted && c.row.status.Posted?
    ensures Next(s, Commit) == Fresh(s.committed)
  {
    assert !Balanced(s.work.lines, c.id);
    assert !Passes(s.work, s.purge, c);
  }

  /** Nothing the transaction does afterwards takes the check back, until it ends. */
  lemma {:induction false} InsertedPostedStaysQueued(s: Session, sts: seq<Statement>, c: Check)
    requires Inv(s) && c in s.pending && c.inserted && c.row.status.Posted?
    requires forall st :: st in sts ==> !st.SetPurge? && !st.Commit? && !st.Rollback? && !st.ResetAll?
    ensures Next(Run(s, sts), Commit) == Fresh(s.committed)
    decreases |sts|
  {
    if sts == [] {
      InsertedPostedNeverCommits(s, c);
    } else {
      var st := sts[0];
      assert st in sts;
      NextKeepsInv(s, st);
      NextKeepsWork(s, st);
      assert c in Next(s, st).pending;
      InsertedPostedStaysQueued(Next(s, st), sts[1..], c);
    }
  }

  lemma {:induction false} FailedStays(s: Session, sts: seq<Statement>)
    requires s.failed && forall st :: st in sts ==> !st.Commit? && !st.Rollback? && !st.ResetAll?
    ensures Run(s, sts) == s
    decreases |sts|
  {
    if sts != [] {
      assert sts[0] in sts;
      FailedStays(s, sts[1..]);
    }
  }

  /** Whatever follows in the same transaction, a direct INSERT of a POSTED journal never commits. */
  lemma DirectPostingNeverCommits(before: seq<Statement>, id: int, row: Journal, after: seq<Statement>)
    requires Ordinary(before) && row.status.Posted?
    requires forall st :: st in after ==> !st.SetPurge? && !st.Commit? && !st.Rollback? && !st.ResetAll?
    ensures
      var s := Run(Empty(), before);
      Next(Run(Next(s, InsertJournal(id, row)), after), Commit) == Fresh(s.committed)
  {
    FreshInv(Tables(map[], map[], map[], map[]));
    RunKeepsInv(Empty(), before);
    var s := Run(Empty(), before);
    var s' := Next(s, InsertJournal(id, row));
    NextKeepsInv(s, InsertJournal(id, row));
    if s'.failed {
      FailedStays(s', after);
    } else {
      var c := Check(id, true, false, row);
      assert s'.pending == s.pending + [c];
      assert c in s'.pending;
      InsertedPostedStaysQueued(s', after, c);
    }
  }

  /** The posting path that does commit: draft, lines, then the status. */
  lemma BalancedDraftCommits(s: Session, id: int, row: Journal, now: int)
    requires !s.purge && !s.failed && forall c :: c in s.pending ==> Passes(s.work, false, c)
    requires id in s.work.journals && !s.work.journals[id].status.Posted?
    requires row.status.Posted? && InOpenPeriod(s.work.periods, row) && Balanced(s.work.lines, id)
    ensures
      var e := Run(s, [UpdateJournal(id, row, true, now), Commit]);
      && e == Fresh(s.work.(journals := s.work.journals[id := row.(updatedAt := now)]))
      && IsPosted(e.committed, id)
  {
    var u := UpdateJournal(id, row, true, now);
    var s1 := Next(s, u);
    assert [u, Commit][1..] == [Commit] && [Commit][1..] == [];
    assert Run(s1, [Commit]) == Next(s1, Commit);
    forall c | c in s1.pending
      ensures Passes(s1.work, s1.purge, c)
    {
      if c in s.pending {
        assert Passes(s.work, false, c);
      } else {
        assert c == Check(id, false, false, row.(updatedAt := now));
      }
    }
  }

  /** No statement changes or removes a committed audit row, not even with the purge hatch open. */
  lemma {:induction false} AuditIsAppendOnly(s: Session, sts: seq<Statement>, id: int)
    requires id in s.committed.audit && id in s.work.audit && s.work.audit[id] == s.committed.audit[id]
    ensures id in Run(s, sts).committed.audit && Run(s, sts).committed.audit[id] == s.committed.audit[id]
    decreases |sts|
  {
    if sts != [] {
      AuditIsAppendOnly(Next(s, sts[0]), sts[1..], id);
    }
  }

  // ---------------------------------------------------------------------------------------
  // The trial balance
  // ---------------------------------------------------------------------------------------

  /** The rows of `vw_general_ledger`: the lines of posted journals. */
  function PostedLines(t: Tables): map<int, Line> {
    map i | i in t.lines && IsPosted(t, t.lines[i].journal) :: t.lines[i]
  }

  function AccountOf(lines: map<int, Line>): map<int, int> {
    map i | i in lines :: lines[i].account
  }

  function JournalOf(lines: map<int, Line>): map<int, int> {
    map i | i in lines :: lines[i].journal
  }

  function Nets(lines: map<int, Line>): map<int, int> {
    map i | i in lines :: lines[i].debit - lines[i].credit
  }

  /** The three sums of `vw_trial_balance`, one row per account. */
  ghost function DebitByAccount(t: Tables): map<int, int> {
    GroupTotals(Debits(PostedLines(t)), AccountOf(PostedLines(t)))
  }

  ghost function CreditByAccount(t: Tables): map<int, int> {
    GroupTotals(Credits(PostedLines(t)), AccountOf(PostedLines(t)))
  }

  ghost function NetByAccount(t: Tables): map<int, int> {
    GroupTotals(Nets(PostedLines(t)), AccountOf(PostedLines(t)))
  }

  /** Within one posted journal, the ledger's debits and credits are that journal's own. */
  lemma JournalGroup(t: Tables, j: int)
    requires IsPosted(t, j)
    ensures Group(Debits(PostedLines(t)), JournalOf(PostedLines(t)), j) == Debits(LinesOf(t.lines, j))
    ensures Group(Credits(PostedLines(t)), JournalOf(PostedLines(t)), j) == Credits(LinesOf(t.lines, j))
  {
    var g := JournalOf(PostedLines(t));
    assert forall i :: (i in g && g[i] == j) <==> i in LinesOf(t.lines, j);
  }

  /** Grouped by journal instead, debit and credit agree row by row. */
  lemma JournalsBalance(t: Tables)
    requires AllPostedBalanced(t)
    ensures GroupTotals(Debits(PostedLines(t)), JournalOf(PostedLines(t))) ==
            GroupTotals(Credits(PostedLines(t)), JournalOf(PostedLines(t)))
  {
    var lines := PostedLines(t);
    var g := JournalOf(lines);
    var d, c := Debits(lines), Credits(lines);
    forall j | j in g.Values
      ensures Total(Group(d, g, j)) == Total(Group(c, g, j))
    {
      PostedGroup(t, j);
      JournalGroup(t, j);
      assert Balanced(t.lines, j);
    }
    SameGroupTotals(d, c, g);
  }

  lemma PostedGroup(t: Tables, j: int)
    requires j in JournalOf(PostedLines(t)).Values
    ensures IsPosted(t, j)
  {
    var g := JournalOf(PostedLines(t));
    var i := MemberOfGroup(g, j);
    assert i in PostedLines(t);
  }

  lemma LedgerTotals(t: Tables)
    requires AllPostedBalanced(t)
    ensures Total(Debits(PostedLines(t))) == Total(Credits(PostedLines(t)))
  {
    var lines := PostedLines(t);
    JournalsBalance(t);
    GroupingKeepsTotal(Debits(lines), JournalOf(lines));
    GroupingKeepsTotal(Credits(lines), JournalOf(lines));
  }

  lemma NetsTotal(lines: map<int, Line>)
    ensures Total(Nets(lines)) == Total(Debits(lines)) - Total(Credits(lines))
  {
    var d, c := Debits(lines), Credits(lines);
    TotalDifference(d, c);
    assert Nets(lines) == map i | i in d :: d[i] - c[i];
  }

  lemma TrialBalanceOf(t: Tables)
    requires AllPostedBalanced(t)
    ensures Total(DebitByAccount(t)) == Total(CreditByAccount(t))
    ensures Total(NetByAccount(t)) == 0
  {
    var lines := PostedLines(t);
    LedgerTotals(t);
    NetsTotal(lines);
    GroupingKeepsTotal(Debits(lines), AccountOf(lines));
    GroupingKeepsTotal(Credits(lines), AccountOf(lines));
    GroupingKeepsTotal(Nets(lines), AccountOf(lines));
  }

  /** The posted lines of one account. */
  ghost predicate PostedOn(t: Tables, i: int, account: int) {
    i in t.lines && t.lines[i].account == account
    && t.lines[i].journal in t.journals && t.journals[t.lines[i].journal].status.Posted?
  }

  /**
   The rows of `vw_trial_balance`: an account has one if and only if a line of a posted journal is
   on it, and its three sums are those of these lines.
   */
  lemma TrialBalanceRow(t: Tables, x: int)
    ensures x in DebitByAccount(t) <==> exists i :: PostedOn(t, i, x)
    ensures DebitByAccount(t).Keys == CreditByAccount(t).Keys == NetByAccount(t).Keys
    ensures x in DebitByAccount(t) ==>
      && DebitByAccount(t)[x] == Total(map i | i in t.lines && PostedOn(t, i, x) :: t.lines[i].debit)
      && CreditByAccount(t)[x] == Total(map i | i in t.lines && PostedOn(t, i, x) :: t.lines[i].credit)
      && NetByAccount(t)[x] == Total(map i | i in t.lines && PostedOn(t, i, x) :: t.lines[i].debit - t.lines[i].credit)
  {
    var g := AccountOf(PostedLines(t));
    AccountRows(t, x);
    if x in g.Values {
      var i := MemberOfGroup(g, x);
      assert PostedOn(t, i, x);
    }
    forall i | PostedOn(t, i, x)
      ensures x in g.Values
    {
      assert i in g && g[i] == x;
    }
    if x in DebitByAccount(t) {
      DebitRow(t, x);
      CreditRow(t, x);
      NetRow(t, x);
    }
  }

  lemma DebitRow(t: Tables, x: int)
    requires x in DebitByAccount(t)
    ensures DebitByAccount(t)[x] == Total(map i | i in t.lines && PostedOn(t, i, x) :: t.lines[i].debit)
  {
    var lines := PostedLines(t);
    AccountRows(t, x);
    GroupRow(Debits(lines), AccountOf(lines), x);
    SameTotals(Debits(lines), AccountOf(lines), x, map i | i in t.lines && PostedOn(t, i, x) :: t.lines[i].debit);
  }

  lemma CreditRow(t: Tables, x: int)
    requires x in CreditByAccount(t)
    ensures CreditByAccount(t)[x] == Total(map i | i in t.lines && PostedOn(t, i, x) :: t.lines[i].credit)
  {
    var lines := PostedLines(t);
    AccountRows(t, x);
    GroupRow(Credits(lines), AccountOf(lines), x);
    SameTotals(Credits(lines), AccountOf(lines), x, map i | i in t.lines && PostedOn(t, i, x) :: t.lines[i].credit);
  }

  lemma NetRow(t: Tables, x: int)
    requires x in NetByAccount(t)
    ensures NetByAccount(t)[x] == Total(map i | i in t.lines && PostedOn(t, i, x) :: t.lines[i].debit - t.lines[i].credit)
  {
    var lines := PostedLines(t);
    AccountRows(t, x);
    GroupRow(Nets(lines), AccountOf(lines), x);
    SameTotals(Nets(lines), AccountOf(lines), x, map i | i in t.lines && PostedOn(t, i, x) :: t.lines[i].debit - t.lines[i].credit);
  }

  /** The lines behind one row. */
  lemma AccountRows(t: Tables, x: int)
    ensures forall i :: i in AccountOf(PostedLines(t)) && AccountOf(PostedLines(t))[i] == x <==> PostedOn(t, i, x)
  {
    forall i
      ensures i in AccountOf(PostedLines(t)) && AccountOf(PostedLines(t))[i] == x <==> PostedOn(t, i, x)
    {
    }
  }

  lemma SameTotals<K, G>(w: map<K, int>, g: map<K, G>, x: G, want: map<K, int>)
    requires w.Keys == g.Keys
    requires forall k :: k in want <==> k in g && g[k] == x
    requires forall k :: k in want ==> k in w && want[k] == w[k]
    ensures Total(map k | k in w && g[k] == x :: w[k]) == Total(want)
  {
    SameMaps(map k | k in w && g[k] == x :: w[k], want);
  }

  /** What the deferred check asks of the lines: two at least, and equal positive sums. */
  lemma BalancedIs(lines: map<int, Line>, j: int)
    ensures
      var debit := Total(map i | i in lines && lines[i].journal == j :: lines[i].debit);
      var credit := Total(map i | i in lines && lines[i].journal == j :: lines[i].credit);
      Balanced(lines, j) <==>
      (exists i, k :: i != k && i in lines && k in lines && lines[i].journal == j && lines[k].journal == j) && debit == credit && debit > 0
  {
    var own := LinesOf(lines, j);
    var debits := map i | i in lines && lines[i].journal == j :: lines[i].debit;
    var credits := map i | i in lines && lines[i].journal == j :: lines[i].credit;
    forall i
      ensures i in own <==> i in lines && lines[i].journal == j
      ensures i in Debits(own) <==> i in debits
      ensures i in Debits(own) && i in debits ==> Debits(own)[i] == debits[i]
      ensures i in Credits(own) <==> i in credits
      ensures i in Credits(own) && i in credits ==> Credits(own)[i] == credits[i]
    {
    }
    SameMaps(Debits(own), debits);
    SameMaps(Credits(own), credits);
    if 2 <= |own| {
      var i, k := TwoKeys(own);
      assert i in lines && k in lines && lines[i].journal == j && lines[k].journal == j;
    }
    forall i, k | i != k && i in lines && k in lines && lines[i].journal == j && lines[k].journal == j
      ensures 2 <= |own|
    {
      AtLeastTwo(own, i, k);
    }
  }

  lemma TwoKeys<K, V>(m: map<K, V>) returns (i: K, k: K)
    requires 2 <= |m|
    ensures i != k && i in m && k in m
  {
    i :| i in m;
    LessOneKey(m, i);
    assert m - {i} != map[];
    k :| k in m - {i};
  }

  lemma AtLeastTwo<K, V>(m: map<K, V>, i: K, k: K)
    requires i != k && i in m && k in m
    ensures 2 <= |m|
  {
    LessOneKey(m, i);
    assert k in m - {i};
    LessOneKey(m - {i}, k);
  }

  /** The date of a posting lies inside its period, ends included, and the period is open. */
  lemma InOpenPeriodIs(periods: map<int, Period>, row: Journal, id: int)
    requires row.period == Some(id)
    ensures InOpenPeriod(periods, row) <==>
            id in periods && periods[id].open && !(row.entryDate < periods[id].start) && !(row.entryDate > periods[id].end)
  {
  }

  /** The check lets through what is purged, not posted or posted before, and postings that balance in an open period. */
  lemma PassesIff(t: Tables, purge: bool, c: Check, id: int)
    requires c.row.period == Some(id)
    ensures Passes(t, purge, c) <==>
      || purge || c.row.status != Posted || (!c.inserted && c.wasPosted)
      || (Balanced(t.lines, c.id) && id in t.periods && t.periods[id].open && t.periods[id].start <= c.row.entryDate <= t.periods[id].end)
  {
  }

  /** Without a period a first posting fails, and any other row passes. */
  lemma PassesWithoutPeriodIff(t: Tables, purge: bool, c: Check)
    requires c.row.period == None
    ensures Passes(t, purge, c) <==> purge || c.row.status != Posted || (!c.inserted && c.wasPosted)
  {
  }

  // ---------------------------------------------------------------------------------------
  // Each guarded statement, row by row
  // ---------------------------------------------------------------------------------------

  /** Inserting fails for a taken id and a missing period; otherwise the row is there and its check queued. */
  lemma JournalInsertIs(s: Session, id: int, row: Journal)
    requires !s.failed
    ensures Next(s, InsertJournal(id, row)) ==
      if id in s.work.journals || (row.period.Some? && row.period.value !in s.work.periods) then s.(failed := true)
      else s.(work := s.work.(journals := s.work.journals[id := row]), pending := s.pending + [Check(id, true, false, row)])
  {
  }

  /** A journal update fails for a posted journal it would change, and for a period that is not there. */
  lemma JournalUpdateFailsIff(s: Session, id: int, row: Journal, setsStatus: bool, now: int)
    requires !s.failed && id in s.work.journals
    ensures
      var was := s.work.journals[id];
      Next(s, UpdateJournal(id, row, setsStatus, now)).failed <==>
      || (row.period.Some? && row.period.value !in s.work.periods)
      || (was.status == Posted && !s.purge
          && ((setsStatus && row.status != Posted) || row.entryDate != was.entryDate || row.period != was.period
              || row.other != was.other || row.updatedAt != was.updatedAt))
  {
  }

  /** An accepted one stores the row under the time of the update, and queues a check if it sets the status. */
  lemma JournalUpdateStores(s: Session, id: int, row: Journal, setsStatus: bool, now: int)
    requires !s.failed && id in s.work.journals && !Next(s, UpdateJournal(id, row, setsStatus, now)).failed
    ensures
      var was, s' := s.work.journals[id], Next(s, UpdateJournal(id, row, setsStatus, now));
      var stored := Journal(if setsStatus then row.status else was.status, row.entryDate, row.period, row.other, now);
      && s'.work == Tables(s.work.journals[id := stored], s.work.lines, s.work.periods, s.work.audit)
      && s'.pending == (if setsStatus then s.pending + [Check(id, false, was.status == Posted, stored)] else s.pending)
      && s'.committed == s.committed && s'.purge == s.purge
  {
  }

  /** Deleting fails for posted journals, purges aside; otherwise the journal and its lines are gone, and nothing else. */
  lemma JournalDeleteIs(s: Session, id: int, j: int, i: int)
    requires !s.failed && id in s.work.journals
    ensures var s' := Next(s, DeleteJournal(id));
      && (s'.failed <==> s.work.journals[id].status == Posted && !s.purge)
      && (!s'.failed ==>
          && (j in s'.work.journals <==> j in s.work.journals && j != id)
          && (j in s'.work.journals ==> s'.work.journals[j] == s.work.journals[j])
          && (i in s'.work.lines <==> i in s.work.lines && s.work.lines[i].journal != id)
          && (i in s'.work.lines ==> s'.work.lines[i] == s.work.lines[i])
          && s' == s.(work := s.work.(journals := s'.work.journals, lines := s'.work.lines)))
  {
  }

  /** Writing a line fails for a missing or posted journal, a taken id, and a line that would move. */
  lemma LineWriteIs(s: Session, id: int, line: Line)
    requires !s.failed
    ensures
      var free := line.journal in s.work.journals && (s.purge || s.work.journals[line.journal].status != Posted);
      var stored := s.(work := s.work.(lines := s.work.lines[id := line]));
      && (id !in s.work.lines ==> Next(s, InsertLine(id, line)) == if free then stored else s.(failed := true))
      && (id in s.work.lines ==> Next(s, InsertLine(id, line)) == s.(failed := true))
      && (id !in s.work.lines ==> Next(s, UpdateLine(id, line)) == s)
      && (id in s.work.lines ==>
          Next(s, UpdateLine(id, line)) ==
          if free && (s.purge || line.journal == s.work.lines[id].journal) then stored else s.(failed := true))
  {
  }

  /** Deleting a line fails if its journal is posted, purges aside; otherwise it alone is gone. */
  lemma LineDeleteIs(s: Session, id: int, i: int)
    requires !s.failed && id in s.work.lines
    ensures var s' := Next(s, DeleteLine(id));
      var j := s.work.lines[id].journal;
      && (s'.failed <==> !s.purge && j in s.work.journals && s.work.journals[j].status == Posted)
      && (!s'.failed ==>
          && (i in s'.work.lines <==> i in s.work.lines && i != id)
          && (i in s'.work.lines ==> s'.work.lines[i] == s.work.lines[i])
          && s' == s.(work := s.work.(lines := s'.work.lines)))
  {
  }

  /**
   In every state an ordinary run can reach, the trial balance over all accounts nets to zero,
   resets included.
   */
  lemma TrialBalanceNetsToZero(sts: seq<Statement>)
    requires Ordinary(sts)
    ensures Total(DebitByAccount(Run(Empty(), sts).committed)) == Total(CreditByAccount(Run(Empty(), sts).committed))
    ensures Total(NetByAccount(Run(Empty(), sts).committed)) == 0
  {
    FreshInv(Tables(map[], map[], map[], map[]));
    RunKeepsInv(Empty(), sts);
    TrialBalanceOf(Run(Empty(), sts).committed);
  }

  // ---------------------------------------------------------------------------------------
  // The guards as the database executes them
  // ---------------------------------------------------------------------------------------

  class Database {
    var committed: Tables
    var work: Tables
    var pending: seq<Check>
    var purge: bool
    var failed: bool

    function Snapshot(): Session
      reads this
    {
      Session(committed, work, pending, purge, failed)
    }

    constructor ()
      ensures Snapshot() == Empty()
    {
      committed := Tables(map[], map[], map[], map[]);
      work := Tables(map[], map[], map[], map[]);
      pending, purge, failed := [], false, false;
    }

    method InsertJournalRow(id: int, row: Journal)
      modifies this
      ensures Snapshot() == Next(old(Snapshot()), InsertJournal(id, row))
    {
      if failed {
        return;
      }
      if id in work.journals || (row.period.Some? && row.period.value !in work.periods) {
        failed := true;
        return;
      }
      work := work.(journals := work.journals[id := row]);
      pending := pending + [Check(id, true, false, row)];
    }

    /** trg_journal_guard, then trg_touch_journal_entries, then the deferred check is queued. */
    method UpdateJournalRow(id: int, row: Journal, setsStatus: bool, now: int)
      modifies this
      ensures Snapshot() == Next(old(Snapshot()), UpdateJournal(id, row, setsStatus, now))
    {
      if failed || id !in work.journals {
        return;
      }
      var was := work.journals[id];
      var new_ := row;
      if !setsStatus {
        new_ := new_.(status := was.status);
      }
      if !purge {
        if was.status.Posted? && new_ != was {
          failed := true;
          return;
        }
      }
      if new_.period.Some? && new_.period.value !in work.periods {
        failed := true;
        return;
      }
      new_ := new_.(updatedAt := now);
      work := work.(journals := work.journals[id := new_]);
      if setsStatus {
        pending := pending + [Check(id, false, was.status.Posted?, new_)];
      }
    }

    method DeleteJournalRow(id: int)
      modifies this
      ensures Snapshot() == Next(old(Snapshot()), DeleteJournal(id))
    {
      if failed || id !in work.journals {
        return;
      }
      if !purge && work.journals[id].status.Posted? {
        failed := true;
        return;
      }
      work := work.(journals := work.journals - {id});
      // The cascade meets the line guard with the parent already gone.
      work := work.(lines := work.lines - LinesOf(work.lines, id).Keys);
    }

    method UpdateLineRow(id: int, line: Line)
      modifies this
      ensures Snapshot() == Next(old(Snapshot()), UpdateLine(id, line))
    {
      if failed || id !in work.lines {
        return;
      }
      if !purge && line.journal in work.journals {
        if work.journals[line.journal].status.Posted? || line.journal != work.lines[id].journal {
          failed := true;
          return;
        }
      }
      if line.journal !in work.journals {
        failed := true;
        return;
      }
      work := work.(lines := work.lines[id := line]);
    }

    method DeleteLineRow(id: int)
      modifies this
      ensures Snapshot() == Next(old(Snapshot()), DeleteLine(id))
    {
      if failed || id !in work.lines {
        return;
      }
      if LineRefused(work, purge, work.lines[id].journal) {
        failed := true;
        return;
      }
      work := work.(lines := work.lines - {id});
    }

    /** fn_validate_journal_post */
    method ValidatePost(c: Check) returns (ok: bool)
      ensures ok <==> Passes(work, purge, c)
    {
      if purge || !c.row.status.Posted? || (!c.inserted && c.wasPosted) {
        return true;
      }
      if !InOpenPeriod(work.periods, c.row) {
        return false;
      }
      var own := LinesOf(work.lines, c.id);
      var deb := SumValues(Debits(own));
      var cred := SumValues(Credits(own));
      return !(|own| < 2 || deb <= 0 || deb != cred);
    }

    /** COMMIT runs the queued checks in order and gives up at the first exception. */
    method CommitTransaction()
      modifies this
      ensures Snapshot() == Next(old(Snapshot()), Commit)
    {
      var accepted := !failed;
      var i := 0;
      while accepted && i < |pending|
        invariant 0 <= i <= |pending|
        invariant Snapshot() == old(Snapshot())
        invariant accepted ==> !failed && forall k :: 0 <= k < i ==> Passes(work, purge, pending[k])
        invariant !accepted ==> failed || exists c :: c in pending && !Passes(work, purge, c)
        decreases |pending| - i, accepted
      {
        var ok := ValidatePost(pending[i]);
        if !ok {
          assert pending[i] in pending;
          accepted := false;
        }
        i := i + 1;
      }
      if accepted {
        committed := work;
      } else {
        work := committed;
      }
      pending, purge, failed := [], false, false;
    }

    /** `DELETE FROM journal_entry_lines` inside the purge transaction. */
    method PurgeLines()
      requires purge && !failed
      modifies this
      ensures Snapshot() == old(Snapshot()).(work := old(work).(lines := map[]))
    {
      ghost var before := Snapshot();
      while work.lines.Keys != {}
        invariant Snapshot() == before.(work := before.work.(lines := work.lines))
        decreases |work.lines|
      {
        var id := AnyKey(work.lines);
        LessOneKey(work.lines, id);
        DeleteLineRow(id);
      }
    }

    /** `DELETE FROM journal_entries` inside the purge transaction. */
    method PurgeJournals()
      requires purge && !failed && work.lines == map[]
      modifies this
      ensures Snapshot() == old(Snapshot()).(work := old(work).(journals := map[]))
    {
      ghost var before := Snapshot();
      while work.journals.Keys != {}
        invariant Snapshot() == before.(work := before.work.(journals := work.journals))
        decreases |work.journals|
      {
        var id := AnyKey(work.journals);
        LessOneKey(work.journals, id);
        assert work.lines - LinesOf(work.lines, id).Keys == work.lines;
        DeleteJournalRow(id);
      }
    }

    /**
     `reset_all_data`: open the hatch, empty the tables children first, commit. With the hatch
     open neither the row guards nor the queued checks object.
     */
    method ResetAllData()
      modifies this
      ensures Snapshot() == Next(old(Snapshot()), ResetAll)
    {
      if failed {
        work, pending, purge, failed := committed, [], false, false;
        return;
      }
      purge := true;
      PurgeLines();
      PurgeJournals();
      work := work.(periods := map[]);
      CommitTransaction();
    }
  }
}
