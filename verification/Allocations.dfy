/**
 Payment allocations under concurrent transactions (READ COMMITTED).

 A write to `financial_document_allocations` runs the trigger `fn_guard_allocation`: it locks
 both documents (`FOR UPDATE`), sums what each of them already has, and only then lets the row
 through. Other transactions may run between any two of these statements. A transaction sees the
 committed rows overlaid with its own writes, keeps its locks until it ends, and publishes its
 writes at commit.
 */
module Allocations {
  import opened Sums
  import opened Wrappers

  datatype DocumentStatus = Draft | Reversed | Cancelled | Live(name: string)
  {
    /** `status NOT IN ('DRAFT', 'REVERSED', 'CANCELLED')` */
    predicate Counts() { Live? }
  }

  datatype DocumentType = CustomerInvoice | SupplierBill | OtherType(name: string)

  datatype Document = Document(kind: DocumentType, status: DocumentStatus, total: int)

  datatype Allocation = Allocation(payment: int, target: int, amount: int)

  /** The two columns of an allocation that name a document. */
  datatype Side = AsPayment | AsTarget

  type Rows = map<int, Allocation>

  function DocOf(a: Allocation, side: Side): int {
    match side
    case AsPayment => a.payment
    case AsTarget => a.target
  }

  /** The amounts of the rows that name document `d` on the given side. */
  function AmountsOn(rows: Rows, side: Side, d: int): map<int, int> {
    map i | i in rows && DocOf(rows[i], side) == d :: rows[i].amount
  }

  ghost function Used(rows: Rows, side: Side, d: int): int {
    Total(AmountsOn(rows, side, d))
  }

  /** `... AND id <> NEW.id` */
  function Without(rows: Rows, id: int): Rows {
    rows - {id}
  }

  // ---------------------------------------------------------------------------------------
  // Transactions
  // ---------------------------------------------------------------------------------------

  /** How far a transaction is inside one INSERT or UPDATE of an allocation. */
  datatype Phase =
    | Idle
    | RowTaken(id: int, next: Allocation)
    | PaymentLocked(id: int, next: Allocation, paymentTotal: Option<int>)
    | BothLocked(id: int, next: Allocation, paymentTotal: Option<int>, targetTotal: Option<int>)
    | PaymentSummed(id: int, next: Allocation, payTotal: int, tarTotal: int, paymentUsed: int)
    | BothSummed(id: int, next: Allocation, payTotal: int, tarTotal: int, paymentUsed: int, targetUsed: int)

  /** `writes[i] == None` records a deleted row. */
  datatype Transaction = Transaction(writes: map<int, Option<Allocation>>, docLocks: set<int>, phase: Phase)
  {
    /** Rows written by an open transaction, or being written, stay locked until it ends. */
    function RowLocks(): set<int> {
      writes.Keys + if phase.Idle? then {} else {phase.id}
    }
  }

  datatype State = State(docs: map<int, Document>, rows: Rows, txns: map<int, Transaction>)

  /** What a transaction sees: the committed rows under its own writes. */
  function Overlay(rows: Rows, writes: map<int, Option<Allocation>>): Rows {
    map i | i in rows.Keys + writes.Keys && (i in writes ==> writes[i].Some?) ::
      if i in writes then writes[i].value else rows[i]
  }

  function View(s: State, t: int): Rows
    requires t in s.txns
  {
    Overlay(s.rows, s.txns[t].writes)
  }

  /** Nobody but `t` holds the row lock of document `d`. */
  predicate DocFree(s: State, t: int, d: int) {
    forall u :: u in s.txns && u != t ==> d !in s.txns[u].docLocks
  }

  predicate DocUnlocked(s: State, d: int) {
    forall u :: u in s.txns ==> d !in s.txns[u].docLocks
  }

  predicate RowFree(s: State, t: int, id: int) {
    forall u :: u in s.txns && u != t ==> id !in s.txns[u].RowLocks()
  }

  datatype Step =
    | AddDocument(d: int, doc: Document)
    | ChangeDocument(d: int, doc: Document)
    | Begin(t: int)
    | TakeRow(t: int, id: int, next: Allocation)   // an INSERT or UPDATE reaches the row
    | LockPayment(t: int)
    | LockTarget(t: int)
    | SumPayment(t: int)
    | SumTarget(t: int)
    | CheckAndWrite(t: int)
    | Delete(t: int, id: int)
    | Commit(t: int)
    | Rollback(t: int)

  function TotalOf(docs: map<int, Document>, d: int): Option<int> {
    if d in docs then Some(docs[d].total) else None
  }

  function SetPhase(s: State, t: int, p: Phase): State
    requires t in s.txns
  {
    s.(txns := s.txns[t := s.txns[t].(phase := p)])
  }

  function LockDoc(s: State, t: int, d: int): State
    requires t in s.txns
  {
    // Only an existing row can be locked.
    if d in s.docs then s.(txns := s.txns[t := s.txns[t].(docLocks := s.txns[t].docLocks + {d})]) else s
  }

  /** A raised exception ends the transaction: its writes and its locks are gone. */
  function End(s: State, t: int): State {
    s.(txns := s.txns - {t})
  }

  /**
   One statement of one transaction. A statement that has to wait for a lock, or that no client
   could issue in this state, leaves the state as it is.
   */
  ghost function Next(s: State, step: Step): State {
    match step
    case AddDocument(d, doc) =>
      if d in s.docs then s else s.(docs := s.docs[d := doc])
    case ChangeDocument(d, doc) =>
      // A committed UPDATE of a document; it needs the row lock.
      if d in s.docs && DocUnlocked(s, d) then s.(docs := s.docs[d := doc]) else s
    case Begin(t) =>
      if t in s.txns then s else s.(txns := s.txns[t := Transaction(map[], {}, Idle)])
    case TakeRow(t, id, next) =>
      if t in s.txns && s.txns[t].phase.Idle? && RowFree(s, t, id) then SetPhase(s, t, RowTaken(id, next)) else s
    case LockPayment(t) =>
      if t in s.txns && s.txns[t].phase.RowTaken? && DocFree(s, t, s.txns[t].phase.next.payment) then
        var p := s.txns[t].phase;
        SetPhase(LockDoc(s, t, p.next.payment), t, PaymentLocked(p.id, p.next, TotalOf(s.docs, p.next.payment)))
      else s
    case LockTarget(t) =>
      if t in s.txns && s.txns[t].phase.PaymentLocked? && DocFree(s, t, s.txns[t].phase.next.target) then
        var p := s.txns[t].phase;
        SetPhase(LockDoc(s, t, p.next.target), t,
                 BothLocked(p.id, p.next, p.paymentTotal, TotalOf(s.docs, p.next.target)))
      else s
    case SumPayment(t) =>
      if t in s.txns && s.txns[t].phase.BothLocked? then
        var p := s.txns[t].phase;
        if p.paymentTotal.None? || p.targetTotal.None? then End(s, t)
        else SetPhase(s, t, PaymentSummed(p.id, p.next, p.paymentTotal.value, p.targetTotal.value,
                                          Used(Without(View(s, t), p.id), AsPayment, p.next.payment)))
      else s
    case SumTarget(t) =>
      if t in s.txns && s.txns[t].phase.PaymentSummed? then
        var p := s.txns[t].phase;
        SetPhase(s, t, BothSummed(p.id, p.next, p.payTotal, p.tarTotal, p.paymentUsed,
                                  Used(Without(View(s, t), p.id), AsTarget, p.next.target)))
      else s
    case CheckAndWrite(t) =>
      if t in s.txns && s.txns[t].phase.BothSummed? then
        var p := s.txns[t].phase;
        if p.paymentUsed + p.next.amount > p.payTotal || p.targetUsed + p.next.amount > p.tarTotal then End(s, t)
        else s.(txns := s.txns[t := Transaction(s.txns[t].writes[p.id := Some(p.next)], s.txns[t].docLocks, Idle)])
      else s
    case Delete(t, id) =>
      // No trigger and no document lock: a reversal unwinds allocations freely.
      if t in s.txns && s.txns[t].phase.Idle? && RowFree(s, t, id) && id in View(s, t) then
        s.(txns := s.txns[t := s.txns[t].(writes := s.txns[t].writes[id := None])])
      else s
    case Commit(t) =>
      if t in s.txns && s.txns[t].phase.Idle? then End(s.(rows := View(s, t)), t) else s
    case Rollback(t) => End(s, t)
  }

  ghost function Run(s: State, steps: seq<Step>): State
    decreases |steps|
  {
    if steps == [] then s else Run(Next(s, steps[0]), steps[1..])
  }

  // ---------------------------------------------------------------------------------------
  // Invariant
  // ---------------------------------------------------------------------------------------

  ghost predicate NonNegative(rows: Rows) {
    forall i :: i in rows ==> 0 <= rows[i].amount
  }

  /** No document has more allocated than its total, on either side. */
  ghost predicate Covered(docs: map<int, Document>, rows: Rows) {
    forall d, side :: d in docs ==> Used(rows, side, d) <= docs[d].total
  }

  ghost predicate Referenced(docs: map<int, Document>, rows: Rows) {
    forall i :: i in rows ==> rows[i].payment in docs && rows[i].target in docs
  }

  ghost predicate WritesLocked(docs: map<int, Document>, txn: Transaction) {
    && txn.docLocks <= docs.Keys
    && forall i :: i in txn.writes && txn.writes[i].Some? ==>
         && 0 <= txn.writes[i].value.amount
         && txn.writes[i].value.payment in txn.docLocks
         && txn.writes[i].value.target in txn.docLocks
  }

  /** Committing the transaction now would keep every document it has locked covered. */
  ghost predicate LockedCovered(docs: map<int, Document>, rows: Rows, txn: Transaction)
    requires txn.docLocks <= docs.Keys
  {
    forall d, side :: d in txn.docLocks ==> Used(Overlay(rows, txn.writes), side, d) <= docs[d].total
  }

  ghost predicate Locked(docs: map<int, Document>, locks: set<int>, d: int, total: int) {
    d in locks && d in docs && docs[d].total == total
  }

  /** What the trigger has read so far still bounds the current rows from above. */
  ghost predicate PhaseSound(docs: map<int, Document>, rows: Rows, txn: Transaction) {
    match txn.phase
    case Idle => true
    case RowTaken(id, next) => 0 <= next.amount
    case PaymentLocked(id, next, pt) =>
      0 <= next.amount && (pt.Some? ==> Locked(docs, txn.docLocks, next.payment, pt.value))
    case BothLocked(id, next, pt, tt) =>
      && 0 <= next.amount
      && (pt.Some? ==> Locked(docs, txn.docLocks, next.payment, pt.value))
      && (tt.Some? ==> Locked(docs, txn.docLocks, next.target, tt.value))
    case PaymentSummed(id, next, pt, tt, pu) =>
      && 0 <= next.amount
      && Locked(docs, txn.docLocks, next.payment, pt) && Locked(docs, txn.docLocks, next.target, tt)
      && Used(Without(Overlay(rows, txn.writes), id), AsPayment, next.payment) <= pu
    case BothSummed(id, next, pt, tt, pu, tu) =>
      && 0 <= next.amount
      && Locked(docs, txn.docLocks, next.payment, pt) && Locked(docs, txn.docLocks, next.target, tt)
      && Used(Without(Overlay(rows, txn.writes), id), AsPayment, next.payment) <= pu
      && Used(Without(Overlay(rows, txn.writes), id), AsTarget, next.target) <= tu
  }

  ghost predicate TxnOk(docs: map<int, Document>, rows: Rows, txn: Transaction) {
    WritesLocked(docs, txn) && LockedCovered(docs, rows, txn) && PhaseSound(docs, rows, txn)
  }

  /** Document locks and row locks are exclusive. */
  ghost predicate Exclusive(txns: map<int, Transaction>) {
    forall t, u :: t in txns && u in txns && t != u ==>
      txns[t].docLocks !! txns[u].docLocks && txns[t].RowLocks() !! txns[u].RowLocks()
  }

  ghost predicate Inv(s: State) {
    && NonNegative(s.rows) && Covered(s.docs, s.rows) && Referenced(s.docs, s.rows)
    && (forall t :: t in s.txns ==> TxnOk(s.docs, s.rows, s.txns[t]))
    && Exclusive(s.txns)
  }

  /**
   The hypotheses the guard needs and does not check itself: amounts and totals are not
   negative, and no total is lowered below what is allocated already.
   */
  ghost predicate Sane(s: State, step: Step) {
    match step
    case AddDocument(d, doc) => 0 <= doc.total
    case ChangeDocument(d, doc) =>
      0 <= doc.total && StillCovers(s.rows, d, doc.total)
    case TakeRow(t, id, next) => 0 <= next.amount
    case _ => true
  }

  /** The total is at least what is allocated of the document, on both sides. */
  ghost predicate StillCovers(rows: Rows, d: int, total: int) {
    Used(rows, AsPayment, d) <= total && Used(rows, AsTarget, d) <= total
  }

  ghost predicate SaneRun(s: State, steps: seq<Step>)
    decreases |steps|
  {
    steps == [] || (Sane(s, steps[0]) && SaneRun(Next(s, steps[0]), steps[1..]))
  }

  ghost predicate Initial(s: State) {
    s.rows == map[] && s.txns == map[] && forall d :: d in s.docs ==> 0 <= s.docs[d].total
  }

  // ---------------------------------------------------------------------------------------
  // Sums over rows
  // ---------------------------------------------------------------------------------------

  lemma UsedMonotone(a: Rows, b: Rows, side: Side, d: int)
    requires NonNegative(b)
    requires forall i :: i in a && DocOf(a[i], side) == d ==> i in b && b[i] == a[i]
    ensures Used(a, side, d) <= Used(b, side, d)
  {
    var v, w := AmountsOn(a, side, d), AmountsOn(b, side, d);
    forall i | i in v
      ensures i in w && v[i] <= w[i]
    {
      assert i in a;
    }
    assert forall i :: i in w ==> 0 <= w[i];
    TotalMonotone(v, w);
  }

  lemma UsedPut(rows: Rows, id: int, next: Allocation, side: Side)
    ensures Used(rows[id := next], side, DocOf(next, side)) == Used(Without(rows, id), side, DocOf(next, side)) + next.amount
  {
    var d := DocOf(next, side);
    TotalPut(AmountsOn(Without(rows, id), side, d), id, next.amount);
    assert AmountsOn(rows[id := next], side, d) == AmountsOn(Without(rows, id), side, d)[id := next.amount];
  }

  lemma OverlayPut(rows: Rows, writes: map<int, Option<Allocation>>, id: int, next: Allocation)
    ensures Overlay(rows, writes[id := Some(next)]) == Overlay(rows, writes)[id := next]
  {
  }

  lemma OverlayNonNegative(docs: map<int, Document>, rows: Rows, txn: Transaction)
    requires NonNegative(rows) && WritesLocked(docs, txn)
    ensures NonNegative(Overlay(rows, txn.writes))
  {
  }

  lemma UsedNothing(rows: Rows, side: Side, d: int)
    requires forall i :: i in rows ==> DocOf(rows[i], side) != d
    ensures Used(rows, side, d) == 0
  {
    var on := AmountsOn(rows, side, d);
    assert forall i :: i in on ==> i in rows;
    assert forall i :: i !in on.Keys;
    assert on.Keys == {};
    assert on == map[];
  }

  // ---------------------------------------------------------------------------------------
  // Every step keeps the invariant
  // ---------------------------------------------------------------------------------------

  /** A transaction has placed nothing on a document it has not locked. */
  lemma UnlockedOnlyShrinks(docs: map<int, Document>, rows: Rows, txn: Transaction, side: Side, d: int)
    requires NonNegative(rows) && WritesLocked(docs, txn) && d !in txn.docLocks
    ensures Used(Overlay(rows, txn.writes), side, d) <= Used(rows, side, d)
  {
    UsedMonotone(Overlay(rows, txn.writes), rows, side, d);
  }

  lemma LockKeepsTxn(docs: map<int, Document>, rows: Rows, txn: Transaction, d: int)
    requires NonNegative(rows) && Covered(docs, rows) && TxnOk(docs, rows, txn) && d in docs
    ensures TxnOk(docs, rows, txn.(docLocks := txn.docLocks + {d}))
  {
    var txn' := txn.(docLocks := txn.docLocks + {d});
    forall e, side | e in txn'.docLocks
      ensures Used(Overlay(rows, txn'.writes), side, e) <= docs[e].total
    {
      if e !in txn.docLocks {
        UnlockedOnlyShrinks(docs, rows, txn, side, e);
      }
    }
  }

  lemma WriteKeepsTxn(docs: map<int, Document>, rows: Rows, txn: Transaction)
    requires NonNegative(rows) && TxnOk(docs, rows, txn) && txn.phase.BothSummed?
    requires txn.phase.paymentUsed + txn.phase.next.amount <= txn.phase.payTotal
    requires txn.phase.targetUsed + txn.phase.next.amount <= txn.phase.tarTotal
    ensures TxnOk(docs, rows, Transaction(txn.writes[txn.phase.id := Some(txn.phase.next)], txn.docLocks, Idle))
  {
    var id, next := txn.phase.id, txn.phase.next;
    var txn' := Transaction(txn.writes[id := Some(next)], txn.docLocks, Idle);
    var before := Overlay(rows, txn.writes);
    OverlayPut(rows, txn.writes, id, next);
    OverlayNonNegative(docs, rows, txn);
    forall d, side | d in txn'.docLocks
      ensures Used(Overlay(rows, txn'.writes), side, d) <= docs[d].total
    {
      if d == DocOf(next, side) {
        UsedPut(before, id, next, side);
      } else {
        UsedMonotone(before[id := next], before, side, d);
      }
    }
  }

  lemma DeleteKeepsTxn(docs: map<int, Document>, rows: Rows, txn: Transaction, id: int)
    requires NonNegative(rows) && TxnOk(docs, rows, txn) && txn.phase.Idle?
    ensures TxnOk(docs, rows, txn.(writes := txn.writes[id := None]))
  {
    var txn' := txn.(writes := txn.writes[id := None]);
    OverlayNonNegative(docs, rows, txn);
    forall d, side | d in txn'.docLocks
      ensures Used(Overlay(rows, txn'.writes), side, d) <= docs[d].total
    {
      UsedMonotone(Overlay(rows, txn'.writes), Overlay(rows, txn.writes), side, d);
    }
  }

  lemma CommitKeepsRows(docs: map<int, Document>, rows: Rows, txn: Transaction)
    requires NonNegative(rows) && Covered(docs, rows) && Referenced(docs, rows) && TxnOk(docs, rows, txn)
    ensures NonNegative(Overlay(rows, txn.writes))
    ensures Covered(docs, Overlay(rows, txn.writes))
    ensures Referenced(docs, Overlay(rows, txn.writes))
  {
    OverlayNonNegative(docs, rows, txn);
    forall d, side | d in docs
      ensures Used(Overlay(rows, txn.writes), side, d) <= docs[d].total
    {
      if d !in txn.docLocks {
        UnlockedOnlyShrinks(docs, rows, txn, side, d);
      }
    }
  }

  /**
   The step the locks exist for: a commit of `txn` can only lower what another open transaction
   has counted on the documents that one has locked.
   */
  lemma CommitShrinksOthers(docs: map<int, Document>, rows: Rows, txn: Transaction, other: Transaction, side: Side, d: int, out: set<int>)
    requires NonNegative(rows) && WritesLocked(docs, txn) && WritesLocked(docs, other)
    requires txn.docLocks !! other.docLocks && d in other.docLocks
    ensures Used(Overlay(Overlay(rows, txn.writes), other.writes) - out, side, d) <= Used(Overlay(rows, other.writes) - out, side, d)
  {
    OverlayNonNegative(docs, rows, other);
    UsedMonotone(Overlay(Overlay(rows, txn.writes), other.writes) - out, Overlay(rows, other.writes) - out, side, d);
  }

  lemma CommitKeepsOther(docs: map<int, Document>, rows: Rows, txn: Transaction, other: Transaction)
    requires NonNegative(rows) && TxnOk(docs, rows, txn) && TxnOk(docs, rows, other)
    requires txn.docLocks !! other.docLocks
    ensures TxnOk(docs, Overlay(rows, txn.writes), other)
  {
    var rows' := Overlay(rows, txn.writes);
    forall d, side | d in other.docLocks
      ensures Used(Overlay(rows', other.writes), side, d) <= docs[d].total
    {
      CommitShrinksOthers(docs, rows, txn, other, side, d, {});
      assert Overlay(rows', other.writes) - {} == Overlay(rows', other.writes);
      assert Overlay(rows, other.writes) - {} == Overlay(rows, other.writes);
    }
    match other.phase
    case PaymentSummed(id, next, _, _, _) =>
      CommitShrinksOthers(docs, rows, txn, other, AsPayment, next.payment, {id});
    case BothSummed(id, next, _, _, _, _) =>
      CommitShrinksOthers(docs, rows, txn, other, AsPayment, next.payment, {id});
      CommitShrinksOthers(docs, rows, txn, other, AsTarget, next.target, {id});
    case _ =>
  }

  lemma DocumentStepKeepsTxn(docs: map<int, Document>, rows: Rows, txn: Transaction, d: int, doc: Document)
    requires TxnOk(docs, rows, txn) && d !in txn.docLocks
    ensures TxnOk(docs[d := doc], rows, txn)
  {
  }

  /** Changing a document keeps all documents covered if and only if its new total still covers it. */
  lemma ChangeKeepsCoveredIff(docs: map<int, Document>, rows: Rows, d: int, doc: Document)
    requires Covered(docs, rows)
    ensures Covered(docs[d := doc], rows) <==> StillCovers(rows, d, doc.total)
  {
    var changed := docs[d := doc];
    assert changed[d].total == doc.total;
    if Covered(changed, rows) {
      assert d in changed && Used(rows, AsPayment, d) <= changed[d].total && Used(rows, AsTarget, d) <= changed[d].total;
    }
    if StillCovers(rows, d, doc.total) {
      forall e, side | e in changed
        ensures Used(rows, side, e) <= changed[e].total
      {
        assert side == AsPayment || side == AsTarget;
      }
    }
  }

  lemma NewDocumentIsCovered(docs: map<int, Document>, rows: Rows, d: int, total: int)
    requires Referenced(docs, rows) && d !in docs && 0 <= total
    ensures StillCovers(rows, d, total)
  {
    UsedNothing(rows, AsPayment, d);
    UsedNothing(rows, AsTarget, d);
  }

  /** Only transaction `t` changes, and it takes no lock that another one holds. */
  lemma OneTxnKeepsInv(s: State, t: int, txn: Transaction)
    requires Inv(s) && TxnOk(s.docs, s.rows, txn)
    requires forall u :: u in s.txns && u != t ==>
               txn.docLocks !! s.txns[u].docLocks && txn.RowLocks() !! s.txns[u].RowLocks()
    ensures Inv(s.(txns := s.txns[t := txn]))
  {
    var txns := s.txns[t := txn];
    forall u, v | u in txns && v in txns && u != v
      ensures txns[u].docLocks !! txns[v].docLocks && txns[u].RowLocks() !! txns[v].RowLocks()
    {
    }
  }

  lemma EndKeepsInv(s: State, t: int)
    requires Inv(s)
    ensures Inv(End(s, t))
  {
  }

  lemma DocumentStepKeepsInv(s: State, d: int, doc: Document)
    requires Inv(s) && 0 <= doc.total && StillCovers(s.rows, d, doc.total)
    requires forall t :: t in s.txns ==> d !in s.txns[t].docLocks
    ensures Inv(s.(docs := s.docs[d := doc]))
  {
    forall t | t in s.txns
      ensures TxnOk(s.docs[d := doc], s.rows, s.txns[t])
    {
      DocumentStepKeepsTxn(s.docs, s.rows, s.txns[t], d, doc);
    }
    ChangeKeepsCoveredIff(s.docs, s.rows, d, doc);
  }

  /** `SELECT total_amount ... FOR UPDATE` on a document nobody else has locked. */
  lemma LockKeepsInv(s: State, t: int, d: int)
    requires Inv(s) && t in s.txns && DocFree(s, t, d)
    ensures Inv(LockDoc(s, t, d))
  {
    if d in s.docs {
      LockKeepsTxn(s.docs, s.rows, s.txns[t], d);
      OneTxnKeepsInv(s, t, s.txns[t].(docLocks := s.txns[t].docLocks + {d}));
    }
  }

  lemma PhaseKeepsInv(s: State, t: int, p: Phase)
    requires Inv(s) && t in s.txns && PhaseSound(s.docs, s.rows, s.txns[t].(phase := p))
    requires s.txns[t].(phase := p).RowLocks() <= s.txns[t].RowLocks() || (p.RowTaken? && RowFree(s, t, p.id))
    ensures Inv(SetPhase(s, t, p))
  {
    OneTxnKeepsInv(s, t, s.txns[t].(phase := p));
  }

  lemma CommitKeepsInv(s: State, t: int)
    requires Inv(s) && t in s.txns
    ensures Inv(End(s.(rows := View(s, t)), t))
  {
    var rows' := View(s, t);
    CommitKeepsRows(s.docs, s.rows, s.txns[t]);
    forall u | u in s.txns && u != t
      ensures TxnOk(s.docs, rows', s.txns[u])
    {
      CommitKeepsOther(s.docs, s.rows, s.txns[t], s.txns[u]);
    }
  }

  lemma TriggerStepKeepsInv(s: State, t: int, step: Step)
    requires Inv(s) && t in s.txns && Sane(s, step)
    requires step == LockPayment(t) || step == LockTarget(t) || step == SumPayment(t) || step == SumTarget(t)
    ensures Inv(Next(s, step))
  {
    var p := s.txns[t].phase;
    if Next(s, step) == s {
    } else if step.LockPayment? {
      LockKeepsInv(s, t, p.next.payment);
      PhaseKeepsInv(LockDoc(s, t, p.next.payment), t, PaymentLocked(p.id, p.next, TotalOf(s.docs, p.next.payment)));
    } else if step.LockTarget? {
      LockKeepsInv(s, t, p.next.target);
      PhaseKeepsInv(LockDoc(s, t, p.next.target), t,
                    BothLocked(p.id, p.next, p.paymentTotal, TotalOf(s.docs, p.next.target)));
    } else if step.SumPayment? {
      if p.paymentTotal.None? || p.targetTotal.None? {
        EndKeepsInv(s, t);
      } else {
        PhaseKeepsInv(s, t, PaymentSummed(p.id, p.next, p.paymentTotal.value, p.targetTotal.value,
                                          Used(Without(View(s, t), p.id), AsPayment, p.next.payment)));
      }
    } else {
      PhaseKeepsInv(s, t, BothSummed(p.id, p.next, p.payTotal, p.tarTotal, p.paymentUsed,
                                     Used(Without(View(s, t), p.id), AsTarget, p.next.target)));
    }
  }

  lemma StepKeepsInv(s: State, step: Step)
    requires Inv(s) && Sane(s, step)
    ensures Inv(Next(s, step))
  {
    if Next(s, step) != s {
      match step
      case AddDocument(d, doc) =>
        NewDocumentIsCovered(s.docs, s.rows, d, doc.total);
        DocumentStepKeepsInv(s, d, doc);
      case ChangeDocument(d, doc) =>
        DocumentStepKeepsInv(s, d, doc);
      case Begin(t) =>
        BeginIsOk(s.docs, s.rows);
        OneTxnKeepsInv(s, t, Transaction(map[], {}, Idle));
      case TakeRow(t, id, next) =>
        PhaseKeepsInv(s, t, RowTaken(id, next));
      case LockPayment(t) =>
        TriggerStepKeepsInv(s, t, step);
      case LockTarget(t) =>
        TriggerStepKeepsInv(s, t, step);
      case SumPayment(t) =>
        TriggerStepKeepsInv(s, t, step);
      case SumTarget(t) =>
        TriggerStepKeepsInv(s, t, step);
      case CheckAndWrite(t) =>
        var txn := s.txns[t];
        if txn.phase.paymentUsed + txn.phase.next.amount > txn.phase.payTotal
           || txn.phase.targetUsed + txn.phase.next.amount > txn.phase.tarTotal {
          EndKeepsInv(s, t);
        } else {
          WriteKeepsTxn(s.docs, s.rows, txn);
          OneTxnKeepsInv(s, t, Transaction(txn.writes[txn.phase.id := Some(txn.phase.next)], txn.docLocks, Idle));
        }
      case Delete(t, id) =>
        DeleteKeepsTxn(s.docs, s.rows, s.txns[t], id);
        OneTxnKeepsInv(s, t, s.txns[t].(writes := s.txns[t].writes[id := None]));
      case Commit(t) =>
        CommitKeepsInv(s, t);
      case Rollback(t) =>
        EndKeepsInv(s, t);
    }
  }

  lemma BeginIsOk(docs: map<int, Document>, rows: Rows)
    ensures TxnOk(docs, rows, Transaction(map[], {}, Idle))
  {
  }

  lemma {:induction false} RunKeepsInv(s: State, steps: seq<Step>)
    requires Inv(s) && SaneRun(s, steps)
    ensures Inv(Run(s, steps))
    decreases |steps|
  {
    if steps != [] {
      StepKeepsInv(s, steps[0]);
      RunKeepsInv(Next(s, steps[0]), steps[1..]);
    }
  }

  lemma InitialInv(s: State)
    requires Initial(s)
    ensures Inv(s)
  {
    forall d, side | d in s.docs
      ensures Used(s.rows, side, d) <= s.docs[d].total
    {
      UsedNothing(s.rows, side, d);
    }
  }

  /**
   Main result: whatever the interleaving of transactions that write, delete, commit and roll
   back, no document ever has more committed allocations than its total, neither as the payment
   nor as the document being paid.
   */
  lemma NeverOverAllocated(s: State, steps: seq<Step>, d: int)
    requires Initial(s) && SaneRun(s, steps)
    requires d in Run(s, steps).docs
    ensures Used(Run(s, steps).rows, AsPayment, d) <= Run(s, steps).docs[d].total
    ensures Used(Run(s, steps).rows, AsTarget, d) <= Run(s, steps).docs[d].total
  {
    InitialInv(s);
    RunKeepsInv(s, steps);
  }

  // ---------------------------------------------------------------------------------------
  // The outstanding view
  // ---------------------------------------------------------------------------------------

  /** The rows `vw_invoice_outstanding` adds up for document `d`: those of live payments. */
  function PaidRows(s: State, d: int): map<int, int> {
    map i | i in s.rows && s.rows[i].target == d && s.rows[i].payment in s.docs
            && s.docs[s.rows[i].payment].status.Counts() :: s.rows[i].amount
  }

  /** `outstanding_amount`, for the documents the view lists. */
  ghost function Outstanding(s: State, d: int): Option<int> {
    if d in s.docs && s.docs[d].kind in {CustomerInvoice, SupplierBill} && s.docs[d].status.Counts() then
      Some(s.docs[d].total - Total(PaidRows(s, d)))
    else None
  }

  /** No listed document is ever overpaid, and none shows more than its own total. */
  lemma OutstandingInRange(s: State, steps: seq<Step>, d: int)
    requires Initial(s) && SaneRun(s, steps)
    ensures Outstanding(Run(s, steps), d).Some? ==>
              0 <= Outstanding(Run(s, steps), d).value <= Run(s, steps).docs[d].total
  {
    InitialInv(s);
    RunKeepsInv(s, steps);
    var e := Run(s, steps);
    var paid, all := PaidRows(e, d), AmountsOn(e.rows, AsTarget, d);
    forall i | i in paid
      ensures i in all && paid[i] <= all[i] && 0 <= paid[i]
    {
      assert i in e.rows;
    }
    assert forall i :: i in all ==> 0 <= all[i];
    TotalMonotone(paid, all);
    TotalNonNegative(paid);
    assert d in e.docs ==> Used(e.rows, AsTarget, d) <= e.docs[d].total;
  }

  /**
   The rows of the view and their values: invoices and bills that are live show their total less
   the allocations to them, of live payments only.
   */
  lemma OutstandingIs(s: State, d: int)
    ensures
      (Outstanding(s, d).Some? <==>
       d in s.docs && (s.docs[d].kind == CustomerInvoice || s.docs[d].kind == SupplierBill) && s.docs[d].status.Live?)
    ensures Outstanding(s, d).Some? ==>
      Outstanding(s, d).value == s.docs[d].total
        - Total(map i | i in s.rows && s.rows[i].target == d && s.rows[i].payment in s.docs && s.docs[s.rows[i].payment].status.Live?
                     :: s.rows[i].amount)
  {
    var paid := PaidRows(s, d);
    var want := map i | i in s.rows && s.rows[i].target == d && s.rows[i].payment in s.docs && s.docs[s.rows[i].payment].status.Live?
                     :: s.rows[i].amount;
    forall i
      ensures i in paid <==> i in want
      ensures i in paid && i in want ==> paid[i] == want[i]
    {
    }
    SameMaps(paid, want);
  }

  /** The sums the guard compares: the amounts of the rows that name the document as payment, or as target. */
  lemma UsedIs(rows: Rows, d: int)
    ensures Used(rows, AsPayment, d) == Total(map i | i in rows && rows[i].payment == d :: rows[i].amount)
    ensures Used(rows, AsTarget, d) == Total(map i | i in rows && rows[i].target == d :: rows[i].amount)
  {
    var payments := map i | i in rows && rows[i].payment == d :: rows[i].amount;
    var targets := map i | i in rows && rows[i].target == d :: rows[i].amount;
    var asPayment, asTarget := AmountsOn(rows, AsPayment, d), AmountsOn(rows, AsTarget, d);
    forall i
      ensures i in asPayment <==> i in payments
      ensures i in asPayment && i in payments ==> asPayment[i] == payments[i]
      ensures i in asTarget <==> i in targets
      ensures i in asTarget && i in targets ==> asTarget[i] == targets[i]
    {
    }
    SameMaps(asPayment, payments);
    SameMaps(asTarget, targets);
  }

  /** A committed allocation lowers the target's outstanding amount by its own, if its payment is live. */
  lemma AllocatingLowersOutstanding(s: State, id: int, a: Allocation, d: int)
    requires id !in s.rows && Outstanding(s, d).Some?
    ensures
      var after := Outstanding(s.(rows := s.rows[id := a]), d);
      after.Some? && after.value == Outstanding(s, d).value
        - if a.target == d && a.payment in s.docs && s.docs[a.payment].status.Live? then a.amount else 0
  {
    var s' := s.(rows := s.rows[id := a]);
    if a.target == d && a.payment in s.docs && s.docs[a.payment].status.Live? {
      assert PaidRows(s', d) == PaidRows(s, d)[id := a.amount];
      TotalPut(PaidRows(s, d), id, a.amount);
    } else {
      assert PaidRows(s', d) == PaidRows(s, d);
    }
  }

  /** Reversing or cancelling a payment raises the target's outstanding amount by what it had paid. */
  lemma {:induction false} EndingPaymentRaisesOutstanding(s: State, p: int, status: DocumentStatus, d: int)
    requires p in s.docs && s.docs[p].status.Live? && !status.Live? && p != d && Outstanding(s, d).Some?
    ensures
      var after := Outstanding(s.(docs := s.docs[p := s.docs[p].(status := status)]), d);
      after.Some? && after.value == Outstanding(s, d).value
        + Total(map i | i in s.rows && s.rows[i].target == d && s.rows[i].payment == p :: s.rows[i].amount)
  {
    var s' := s.(docs := s.docs[p := s.docs[p].(status := status)]);
    var ended := map i | i in s.rows && s.rows[i].target == d && s.rows[i].payment == p :: s.rows[i].amount;
    var before, after := PaidRows(s, d), PaidRows(s', d);
    forall i
      ensures i in before <==> i in after || i in ended
      ensures i in after ==> i !in ended && before[i] == after[i]
      ensures i in ended ==> before[i] == ended[i]
    {
    }
    TotalSplit(before, after, ended);
  }

  // ---------------------------------------------------------------------------------------
  // What one undisturbed call of the trigger decides
  // ---------------------------------------------------------------------------------------

  /** The statements one INSERT or UPDATE goes through. */
  function GuardSteps(t: int, id: int, next: Allocation): seq<Step> {
    [TakeRow(t, id, next), LockPayment(t), LockTarget(t), SumPayment(t), SumTarget(t), CheckAndWrite(t)]
  }

  /** The row fits the remaining balance of both documents, as the transaction sees them. */
  ghost predicate Fits(s: State, t: int, id: int, next: Allocation)
    requires t in s.txns
  {
    && next.payment in s.docs && next.target in s.docs
    && Used(Without(View(s, t), id), AsPayment, next.payment) + next.amount <= s.docs[next.payment].total
    && Used(Without(View(s, t), id), AsTarget, next.target) + next.amount <= s.docs[next.target].total
  }

  ghost predicate Ready(s: State, t: int, id: int, next: Allocation) {
    && t in s.txns && s.txns[t].phase.Idle? && RowFree(s, t, id)
    && DocFree(s, t, next.payment) && DocFree(s, t, next.target)
  }

  /**
   The guard lets a row through if and only if it fits; then the transaction sees exactly that
   row changed and holds both documents, otherwise the transaction is over.
   */
  lemma GuardDecides(s: State, t: int, id: int, next: Allocation)
    requires Ready(s, t, id, next)
    ensures Run(s, GuardSteps(t, id, next)) ==
            if Fits(s, t, id, next) then
              s.(txns := s.txns[t := Transaction(s.txns[t].writes[id := Some(next)],
                                                 s.txns[t].docLocks + {next.payment, next.target}, Idle)])
            else End(s, t)
    ensures Fits(s, t, id, next) ==> View(Run(s, GuardSteps(t, id, next)), t) == View(s, t)[id := next]
  {
    var s1 := Next(s, TakeRow(t, id, next));
    var s2 := Next(s1, LockPayment(t));
    var s3 := Next(s2, LockTarget(t));
    GuardLocks(s, t, id, next);
    GuardSums(s, s3, t, id, next);
    var s4 := Next(s3, SumPayment(t));
    var s5 := Next(s4, SumTarget(t));
    RunStep(s, TakeRow(t, id, next), [LockPayment(t), LockTarget(t), SumPayment(t), SumTarget(t), CheckAndWrite(t)]);
    RunStep(s1, LockPayment(t), [LockTarget(t), SumPayment(t), SumTarget(t), CheckAndWrite(t)]);
    RunStep(s2, LockTarget(t), [SumPayment(t), SumTarget(t), CheckAndWrite(t)]);
    RunStep(s3, SumPayment(t), [SumTarget(t), CheckAndWrite(t)]);
    RunStep(s4, SumTarget(t), [CheckAndWrite(t)]);
    RunStep(s5, CheckAndWrite(t), []);
    OverlayPut(s.rows, s.txns[t].writes, id, next);
  }

  function LocksOn(docs: map<int, Document>, next: Allocation): set<int> {
    set d | d in {next.payment, next.target} && d in docs
  }

  /** The first three statements lock whichever of the two documents exist and read their totals. */
  lemma GuardLocks(s: State, t: int, id: int, next: Allocation)
    requires Ready(s, t, id, next)
    ensures Next(Next(Next(s, TakeRow(t, id, next)), LockPayment(t)), LockTarget(t)) ==
            s.(txns := s.txns[t := Transaction(s.txns[t].writes, s.txns[t].docLocks + LocksOn(s.docs, next),
                                               BothLocked(id, next, TotalOf(s.docs, next.payment), TotalOf(s.docs, next.target)))])
  {
    var txn := s.txns[t];
    var s1 := Next(s, TakeRow(t, id, next));
    assert s1 == s.(txns := s.txns[t := txn.(phase := RowTaken(id, next))]);
    assert DocFree(s1, t, next.payment);
    var s2 := Next(s1, LockPayment(t));
    var locks := txn.docLocks + if next.payment in s.docs then {next.payment} else {};
    assert s2.txns[t] == Transaction(txn.writes, locks, PaymentLocked(id, next, TotalOf(s.docs, next.payment)));
    assert s2.txns == s.txns[t := s2.txns[t]];
    assert DocFree(s2, t, next.target);
    var s3 := Next(s2, LockTarget(t));
    assert s3.txns[t].docLocks == txn.docLocks + LocksOn(s.docs, next);
    assert s3.txns == s.txns[t := s3.txns[t]];
  }

  /** The other three compare both sums with both totals. */
  lemma GuardSums(s: State, s3: State, t: int, id: int, next: Allocation)
    requires t in s.txns
    requires s3 == s.(txns := s.txns[t := Transaction(s.txns[t].writes, s.txns[t].docLocks + LocksOn(s.docs, next),
                                                      BothLocked(id, next, TotalOf(s.docs, next.payment), TotalOf(s.docs, next.target)))])
    ensures Next(Next(Next(s3, SumPayment(t)), SumTarget(t)), CheckAndWrite(t)) ==
            if Fits(s, t, id, next) then
              s.(txns := s.txns[t := Transaction(s.txns[t].writes[id := Some(next)],
                                                 s.txns[t].docLocks + {next.payment, next.target}, Idle)])
            else End(s, t)
  {
    assert View(s3, t) == View(s, t);
    var s4 := Next(s3, SumPayment(t));
    if next.payment in s.docs && next.target in s.docs {
      assert LocksOn(s.docs, next) == {next.payment, next.target};
      assert View(s4, t) == View(s, t);
      var s5 := Next(s4, SumTarget(t));
      var s6 := Next(s5, CheckAndWrite(t));
      if Fits(s, t, id, next) {
        assert s6.txns == s.txns[t := s6.txns[t]];
      } else {
        assert s6.txns == s.txns - {t};
      }
    } else {
      assert s4.txns == s.txns - {t};
    }
  }

  lemma RunStep(s: State, step: Step, rest: seq<Step>)
    ensures Run(s, [step] + rest) == Run(Next(s, step), rest)
  {
    assert ([step] + rest)[1..] == rest;
  }

  lemma {:induction false} RunConcat(s: State, a: seq<Step>, b: seq<Step>)
    ensures Run(s, a + b) == Run(Run(s, a), b)
    decreases |a|
  {
    if a == [] {
      assert a + b == b;
    } else {
      assert (a + b)[0] == a[0] && (a + b)[1..] == a[1..] + b;
      RunConcat(Next(s, a[0]), a[1..], b);
    }
  }

  // ---------------------------------------------------------------------------------------
  // The trigger and its siblings, as the database executes them
  // ---------------------------------------------------------------------------------------

  class Database {
    var docs: map<int, Document>
    var rows: Rows
    var txns: map<int, Transaction>

    function Snapshot(): State
      reads this
    {
      State(docs, rows, txns)
    }

    /** One undisturbed INSERT or UPDATE of row `id` by transaction `t`. */
    method GuardAllocation(t: int, id: int, next: Allocation) returns (accepted: bool)
      requires Ready(Snapshot(), t, id, next)
      modifies this
      ensures Snapshot() == Run(old(Snapshot()), GuardSteps(t, id, next))
      ensures accepted <==> old(Fits(Snapshot(), t, id, next))
    {
      GuardDecides(Snapshot(), t, id, next);
      var txn := txns[t];
      var paymentTotal := TotalOf(docs, next.payment);
      var targetTotal := TotalOf(docs, next.target);
      if paymentTotal.None? || targetTotal.None? {
        txns := txns - {t};
        return false;
      }
      var others := Without(Overlay(rows, txn.writes), id);
      var paymentUsed := SumValues(AmountsOn(others, AsPayment, next.payment));
      var targetUsed := SumValues(AmountsOn(others, AsTarget, next.target));
      if paymentUsed + next.amount > paymentTotal.value || targetUsed + next.amount > targetTotal.value {
        txns := txns - {t};
        return false;
      }
      txns := txns[t := Transaction(txn.writes[id := Some(next)], txn.docLocks + {next.payment, next.target}, Idle)];
      return true;
    }

    method DeleteAllocation(t: int, id: int)
      requires t in txns && txns[t].phase.Idle? && RowFree(Snapshot(), t, id)
      modifies this`txns
      ensures Snapshot() == Next(old(Snapshot()), Delete(t, id))
      ensures t in txns && View(Snapshot(), t) == Without(old(View(Snapshot(), t)), id)
    {
      if id in Overlay(rows, txns[t].writes) {
        txns := txns[t := txns[t].(writes := txns[t].writes[id := None])];
      }
    }

    method CommitTransaction(t: int)
      requires t in txns && txns[t].phase.Idle?
      modifies this`txns, this`rows
      ensures Snapshot() == Next(old(Snapshot()), Commit(t))
      ensures rows == old(View(Snapshot(), t)) && t !in txns
      ensures forall u :: u in old(txns) && u != t ==> u in txns && txns[u] == old(txns)[u]
    {
      rows := Overlay(rows, txns[t].writes);
      txns := txns - {t};
    }
  }

  // ---------------------------------------------------------------------------------------
  // The hypotheses are needed
  // ---------------------------------------------------------------------------------------

  function TwoDocuments(): State {
    State(map[1 := Document(OtherType("CUSTOMER_RECEIPT"), Live("POSTED"), 100),
              2 := Document(CustomerInvoice, Live("POSTED"), 500)], map[], map[])
  }

  /** A full allocation of the payment, committed. */
  function AllocateAll(): seq<Step> {
    [Begin(0)] + GuardSteps(0, 1, Allocation(1, 2, 100)) + [Commit(0)]
  }

  lemma UsedOne(rows: Rows, id: int, side: Side)
    requires id in rows && forall i :: i in rows && i != id ==> DocOf(rows[i], side) != DocOf(rows[id], side)
    ensures Used(rows, side, DocOf(rows[id], side)) == rows[id].amount
  {
    UsedNothing(Without(rows, id), side, DocOf(rows[id], side));
    UsedPut(rows, id, rows[id], side);
    assert rows[id := rows[id]] == rows;
  }

  lemma BeginAndGuard(s: State, id: int, next: Allocation)
    requires s.txns == map[]
    requires Fits(Next(s, Begin(0)), 0, id, next)
    ensures Run(s, [Begin(0)] + GuardSteps(0, id, next) + [Commit(0)]) == State(s.docs, s.rows[id := next], map[])
  {
    var s1 := Next(s, Begin(0));
    var s2 := Run(s1, GuardSteps(0, id, next));
    GuardDecides(s1, 0, id, next);
    RunOne(s, Begin(0));
    RunConcat(s, [Begin(0)] + GuardSteps(0, id, next), [Commit(0)]);
    RunConcat(s, [Begin(0)], GuardSteps(0, id, next));
    RunOne(s2, Commit(0));
    assert s2.txns.Keys == {0} && s1.txns[0].writes == map[];
    CommitAlone(s, s2, map[], id, next);
  }

  lemma RunOne(s: State, step: Step)
    ensures Run(s, [step]) == Next(s, step)
  {
    assert [step][1..] == [];
    assert Run(Next(s, step), []) == Next(s, step);
  }

  lemma CommitAlone(s: State, s2: State, writes: map<int, Option<Allocation>>, id: int, next: Allocation)
    requires s2.docs == s.docs && s2.rows == s.rows && s2.txns.Keys == {0} && s2.txns[0].phase.Idle?
    requires writes == map[] && s2.txns[0].writes == writes[id := Some(next)]
    ensures Next(s2, Commit(0)) == State(s.docs, s.rows[id := next], map[])
  {
    OverlayPut(s.rows, writes, id, next);
    assert Overlay(s.rows, writes) == s.rows;
    assert (s2.txns - {0}).Keys == {};
  }

  /** Lowering the total of an allocated document is not guarded, and breaks the bound. */
  lemma LoweredTotalIsNotGuarded()
    ensures Initial(TwoDocuments())
    ensures
      var steps := AllocateAll() + [ChangeDocument(1, TwoDocuments().docs[1].(total := 40))];
      var e := Run(TwoDocuments(), steps);
      1 in e.docs && Used(e.rows, AsPayment, 1) > e.docs[1].total
  {
    var s, next := TwoDocuments(), Allocation(1, 2, 100);
    var s1 := Next(s, Begin(0));
    UsedNothing(Without(View(s1, 0), 1), AsPayment, 1);
    UsedNothing(Without(View(s1, 0), 1), AsTarget, 2);
    BeginAndGuard(s, 1, next);
    var step := ChangeDocument(1, s.docs[1].(total := 40));
    RunConcat(s, AllocateAll(), [step]);
    var e := Run(s, AllocateAll());
    assert Run(e, [step]) == Next(e, step);
    UsedOne(e.rows, 1, AsPayment);
  }

  lemma BeginAndDelete(s: State, id: int)
    requires s.txns == map[] && id in s.rows
    ensures Run(s, [Begin(0), Delete(0, id), Commit(0)]) == State(s.docs, Without(s.rows, id), map[])
  {
    var s1 := Next(s, Begin(0));
    assert View(s1, 0) == s.rows;
    var s2 := Next(s1, Delete(0, id));
    var s3 := Next(s2, Commit(0));
    RunStep(s, Begin(0), [Delete(0, id), Commit(0)]);
    RunStep(s1, Delete(0, id), [Commit(0)]);
    RunStep(s2, Commit(0), []);
    assert s3.txns.Keys == {};
    assert s3.rows == Without(s.rows, id);
  }

  /** An allocation of -50 lets one of 150 through a payment of 100. */
  lemma NegativeAmountIsAccepted(a: seq<Step>, b: seq<Step>)
    requires a == [Begin(0)] + GuardSteps(0, 1, Allocation(1, 2, -50)) + [Commit(0)]
    requires b == [Begin(0)] + GuardSteps(0, 2, Allocation(1, 2, 150)) + [Commit(0)]
    ensures Run(TwoDocuments(), a + b) ==
            State(TwoDocuments().docs, map[1 := Allocation(1, 2, -50), 2 := Allocation(1, 2, 150)], map[])
  {
    var s, n, m := TwoDocuments(), Allocation(1, 2, -50), Allocation(1, 2, 150);
    var s0 := Next(s, Begin(0));
    UsedNothing(Without(View(s0, 0), 1), AsPayment, 1);
    UsedNothing(Without(View(s0, 0), 1), AsTarget, 2);
    BeginAndGuard(s, 1, n);
    var s1 := Run(s, a);
    var s2 := Next(s1, Begin(0));
    assert View(s2, 0) == s1.rows && Without(s1.rows, 2) == s1.rows;
    UsedOne(s1.rows, 1, AsPayment);
    UsedOne(s1.rows, 1, AsTarget);
    BeginAndGuard(s1, 2, m);
    RunConcat(s, a, b);
  }

  /** Nor is a negative amount: deleting it afterwards leaves more allocated than paid. */
  lemma NegativeAmountIsNotGuarded()
    ensures
      var a := [Begin(0)] + GuardSteps(0, 1, Allocation(1, 2, -50)) + [Commit(0)];
      var b := [Begin(0)] + GuardSteps(0, 2, Allocation(1, 2, 150)) + [Commit(0)];
      var e := Run(TwoDocuments(), a + b + [Begin(0), Delete(0, 1), Commit(0)]);
      1 in e.docs && Used(e.rows, AsPayment, 1) > e.docs[1].total
  {
    var a := [Begin(0)] + GuardSteps(0, 1, Allocation(1, 2, -50)) + [Commit(0)];
    var b := [Begin(0)] + GuardSteps(0, 2, Allocation(1, 2, 150)) + [Commit(0)];
    NegativeAmountIsAccepted(a, b);
    var s := Run(TwoDocuments(), a + b);
    RunConcat(TwoDocuments(), a + b, [Begin(0), Delete(0, 1), Commit(0)]);
    BeginAndDelete(s, 1);
    UsedOne(Without(s.rows, 1), 2, AsPayment);
  }
}
