/**
 Document numbers under concurrent transactions (READ COMMITTED).

 `allocate_number` reads the sequence row `FOR UPDATE`, inserts it when it is missing, and
 increments `last_value`. Other transactions may run between these statements; the row lock is
 held until the transaction ends. A missing row may be inserted by two transactions at once:
 the unique constraint makes the second wait for the first, and fail if the first commits.
 */
module Sequences {
  import opened Wrappers
  import opened Decimals

  /** `UNIQUE (document_type, period_year)` */
  datatype Key = Key(kind: string, year: nat)

  datatype Row = Row(prefix: string, last: nat, padding: nat)

  datatype Issued = Issued(key: Key, n: nat, text: string)

  datatype Phase =
    | Idle
    | Missing(key: Key, prefix: Option<string>)  // SELECT ... FOR UPDATE found no row
    | Holding(key: Key)                          // the row is locked, not yet incremented

  datatype Transaction = Transaction(writes: map<Key, Row>, issued: seq<Issued>, phase: Phase)
  {
    function Locks(): set<Key> {
      writes.Keys + if phase.Holding? then {phase.key} else {}
    }
  }

  /** `log` lists the committed numbers in commit order. */
  datatype State = State(rows: map<Key, Row>, log: seq<Issued>, txns: map<int, Transaction>)

  datatype Step =
    | Begin(t: int)
    | SelectForUpdate(t: int, key: Key, prefix: Option<string>)
    | InsertRow(t: int)
    | Increment(t: int)
    | Commit(t: int)
    | Rollback(t: int)
    | Seed(key: Key)   // provision_baseline adds a row for the year, in a transaction of its own

  const DEFAULT_PREFIXES: map<string, string> := map[
    "QUOTATION" := "Q", "SERVICE_ORDER" := "SO", "SERVICE_CHARGE" := "SC", "CUSTOMER_INVOICE" := "INV",
    "CREDIT_NOTE" := "CN", "SUPPLIER_BILL" := "BILL", "SUPPLIER_CREDIT_NOTE" := "SCN",
    "CUSTOMER_RECEIPT" := "REC", "SUPPLIER_PAYMENT" := "PAY", "JOURNAL" := "JE"]

  const PADDING: nat := 6

  /** `DEFAULT_PREFIXES.get(document_type, document_type[:2])` */
  function DefaultPrefix(kind: string): string {
    if kind in DEFAULT_PREFIXES then DEFAULT_PREFIXES[kind]
    else if |kind| <= 2 then kind else kind[..2]
  }

  /** `prefix or DEFAULT_PREFIXES...` */
  function ChoosePrefix(kind: string, prefix: Option<string>): string {
    if prefix.Some? && prefix.value != "" then prefix.value else DefaultPrefix(kind)
  }

  /** `f"{prefix}{year}-{str(n).zfill(padding)}"` */
  function Render(prefix: string, year: nat, padding: nat, n: nat): string {
    prefix + (Digits(year) + ("-" + ZFill(Digits(n), padding)))
  }

  // ---------------------------------------------------------------------------------------
  // Steps
  // ---------------------------------------------------------------------------------------

  predicate Free(s: State, t: int, key: Key) {
    forall u :: u in s.txns && u != t ==> key !in s.txns[u].Locks()
  }

  predicate Unlocked(s: State, key: Key) {
    forall u :: u in s.txns ==> key !in s.txns[u].Locks()
  }

  function Put(s: State, t: int, txn: Transaction): State {
    s.(txns := s.txns[t := txn])
  }

  function End(s: State, t: int): State {
    s.(txns := s.txns - {t})
  }

  /** The row as the transaction sees it: its own version first. */
  function See(s: State, txn: Transaction, key: Key): Row
    requires key in txn.writes || key in s.rows
  {
    if key in txn.writes then txn.writes[key] else s.rows[key]
  }

  /** The transaction after one increment of `key`, whose visible row is `row`. */
  function Incremented(txn: Transaction, key: Key, row: Row): Transaction {
    var n := row.last + 1;
    Transaction(txn.writes[key := row.(last := n)],
                txn.issued + [Issued(key, n, Render(row.prefix, key.year, row.padding, n))], Idle)
  }

  /** A statement that has to wait leaves the state as it is. */
  function Next(s: State, step: Step): State {
    match step
    case Begin(t) =>
      if t in s.txns then s else Put(s, t, Transaction(map[], [], Idle))
    case SelectForUpdate(t, key, prefix) =>
      if t in s.txns && s.txns[t].phase.Idle? then
        if key in s.txns[t].writes || key in s.rows then
          if Free(s, t, key) then Put(s, t, s.txns[t].(phase := Holding(key))) else s
        else Put(s, t, s.txns[t].(phase := Missing(key, prefix)))
      else s
    case InsertRow(t) =>
      if t in s.txns && s.txns[t].phase.Missing? && Free(s, t, s.txns[t].phase.key) then
        var key := s.txns[t].phase.key;
        if key in s.rows then End(s, t)  // unique violation
        else
          var row := Row(ChoosePrefix(key.kind, s.txns[t].phase.prefix), 0, PADDING);
          Put(s, t, Transaction(s.txns[t].writes[key := row], s.txns[t].issued, Holding(key)))
      else s
    case Increment(t) =>
      if t in s.txns && s.txns[t].phase.Holding? && (s.txns[t].phase.key in s.txns[t].writes || s.txns[t].phase.key in s.rows) then
        var txn := s.txns[t];
        Put(s, t, Incremented(txn, txn.phase.key, See(s, txn, txn.phase.key)))
      else s
    case Commit(t) =>
      if t in s.txns && s.txns[t].phase.Idle? then
        End(s.(rows := s.rows + s.txns[t].writes, log := s.log + s.txns[t].issued), t)
      else s
    case Rollback(t) => End(s, t)
    case Seed(key) =>
      if key in s.rows || !Unlocked(s, key) then s
      else s.(rows := s.rows[key := Row(DefaultPrefix(key.kind), 0, PADDING)])
  }

  function Run(s: State, steps: seq<Step>): State
    decreases |steps|
  {
    if steps == [] then s else Run(Next(s, steps[0]), steps[1..])
  }

  function Empty(): State {
    State(map[], [], map[])
  }

  // ---------------------------------------------------------------------------------------
  // Numbers of one key
  // ---------------------------------------------------------------------------------------

  /** The numbers issued for `key`, in order. */
  function Numbers(log: seq<Issued>, key: Key): seq<nat> {
    if log == [] then []
    else Numbers(log[..|log| - 1], key) + if log[|log| - 1].key == key then [log[|log| - 1].n] else []
  }

  /** `[1, 2, ..., n]` */
  function UpTo(n: nat): (s: seq<nat>)
    ensures |s| == n && forall i :: 0 <= i < n ==> s[i] == i + 1
  {
    if n == 0 then [] else UpTo(n - 1) + [n]
  }

  lemma {:induction false} NumbersConcat(a: seq<Issued>, b: seq<Issued>, key: Key)
    ensures Numbers(a + b, key) == Numbers(a, key) + Numbers(b, key)
    decreases |b|
  {
    if b == [] {
      assert a + b == a;
    } else {
      var b' := b[..|b| - 1];
      NumbersConcat(a, b', key);
      assert (a + b)[..|a + b| - 1] == a + b';
    }
  }

  lemma NumbersOne(a: seq<Issued>, i: Issued, key: Key)
    ensures Numbers(a + [i], key) == Numbers(a, key) + if i.key == key then [i.n] else []
  {
    assert (a + [i])[..|a|] == a;
  }

  function LastOf(rows: map<Key, Row>, key: Key): nat {
    if key in rows then rows[key].last else 0
  }

  // ---------------------------------------------------------------------------------------
  // Invariant
  // ---------------------------------------------------------------------------------------

  /** The text of an issued number is rendered with the prefix and padding of its row. */
  ghost predicate Rendered(rows: map<Key, Row>, i: Issued) {
    i.key in rows && i.text == Render(rows[i.key].prefix, i.key.year, rows[i.key].padding, i.n)
  }

  ghost predicate SameLayout(a: Row, b: Row) {
    a.prefix == b.prefix && a.padding == b.padding
  }

  ghost predicate TxnOk(rows: map<Key, Row>, log: seq<Issued>, txn: Transaction) {
    && (forall k :: k in txn.writes ==> Numbers(log + txn.issued, k) == UpTo(txn.writes[k].last))
    && (forall k :: k !in txn.writes ==> Numbers(txn.issued, k) == [])
    && (forall k :: k in txn.writes && k in rows ==> SameLayout(txn.writes[k], rows[k]))
    && (forall i :: i in txn.issued ==> Rendered(txn.writes, i))
    && (txn.phase.Holding? ==> txn.phase.key in txn.writes || txn.phase.key in rows)
    && (txn.phase.Missing? ==> txn.phase.key !in txn.writes)
  }

  ghost predicate Exclusive(txns: map<int, Transaction>) {
    forall t, u :: t in txns && u in txns && t != u ==> txns[t].Locks() !! txns[u].Locks()
  }

  ghost predicate Inv(s: State) {
    && (forall k :: Numbers(s.log, k) == UpTo(LastOf(s.rows, k)))
    && (forall i :: i in s.log ==> Rendered(s.rows, i))
    && (forall t :: t in s.txns ==> TxnOk(s.rows, s.log, s.txns[t]))
    && Exclusive(s.txns)
  }

  // ---------------------------------------------------------------------------------------
  // Every step keeps the invariant
  // ---------------------------------------------------------------------------------------

  lemma OneTxnKeepsInv(s: State, t: int, txn: Transaction)
    requires Inv(s) && TxnOk(s.rows, s.log, txn)
    requires forall u :: u in s.txns && u != t ==> txn.Locks() !! s.txns[u].Locks()
    ensures Inv(Put(s, t, txn))
  {
  }

  lemma EndKeepsInv(s: State, t: int)
    requires Inv(s)
    ensures Inv(End(s, t))
  {
  }

  lemma InsertKeepsTxn(s: State, t: int, key: Key, row: Row)
    requires Inv(s) && t in s.txns && key !in s.rows && key !in s.txns[t].writes && row.last == 0
    ensures TxnOk(s.rows, s.log, Transaction(s.txns[t].writes[key := row], s.txns[t].issued, Holding(key)))
  {
    assert Numbers(s.log, key) == UpTo(LastOf(s.rows, key));
    InsertedIsOk(s.rows, s.log, s.txns[t], key, row);
  }

  lemma InsertedIsOk(rows: map<Key, Row>, log: seq<Issued>, txn: Transaction, key: Key, row: Row)
    requires TxnOk(rows, log, txn) && key !in rows && key !in txn.writes && row.last == 0 && Numbers(log, key) == []
    ensures TxnOk(rows, log, Transaction(txn.writes[key := row], txn.issued, Holding(key)))
  {
    var writes := txn.writes[key := row];
    NumbersConcat(log, txn.issued, key);
    forall i | i in txn.issued
      ensures Rendered(writes, i)
    {
      assert Rendered(txn.writes, i);
    }
  }

  lemma IncrementNumbers(log: seq<Issued>, txn: Transaction, key: Key, row: Row, k: Key)
    ensures Numbers(Incremented(txn, key, row).issued, k) ==
            Numbers(txn.issued, k) + (if k == key then [row.last + 1] else [])
    ensures Numbers(log + Incremented(txn, key, row).issued, k) ==
            Numbers(log + txn.issued, k) + (if k == key then [row.last + 1] else [])
  {
    var i := Incremented(txn, key, row).issued[|txn.issued|];
    NumbersOne(txn.issued, i, k);
    assert log + Incremented(txn, key, row).issued == (log + txn.issued) + [i];
    NumbersOne(log + txn.issued, i, k);
  }

  lemma IncrementRendered(txn: Transaction, key: Key, row: Row, i: Issued)
    requires forall j :: j in txn.issued ==> Rendered(txn.writes, j)
    requires key in txn.writes ==> SameLayout(txn.writes[key], row)
    requires i in Incremented(txn, key, row).issued
    ensures Rendered(Incremented(txn, key, row).writes, i)
  {
    if i in txn.issued {
      assert Rendered(txn.writes, i);
    }
  }

  lemma IncrementKeepsTxn(s: State, t: int)
    requires Inv(s) && t in s.txns && s.txns[t].phase.Holding?
    ensures TxnOk(s.rows, s.log, Incremented(s.txns[t], s.txns[t].phase.key, See(s, s.txns[t], s.txns[t].phase.key)))
  {
    var txn := s.txns[t];
    var key := txn.phase.key;
    var row := See(s, txn, key);
    assert TxnOk(s.rows, s.log, txn);
    NumbersConcat(s.log, txn.issued, key);
    assert Numbers(s.log + txn.issued, key) == UpTo(row.last);
    IncrementedIsOk(s.rows, s.log, txn, key, row);
  }

  lemma IncrementedIsOk(rows: map<Key, Row>, log: seq<Issued>, txn: Transaction, key: Key, row: Row)
    requires TxnOk(rows, log, txn) && Numbers(log + txn.issued, key) == UpTo(row.last)
    requires key in txn.writes ==> SameLayout(txn.writes[key], row)
    requires key in rows ==> SameLayout(rows[key], row)
    ensures TxnOk(rows, log, Incremented(txn, key, row))
  {
    var txn' := Incremented(txn, key, row);
    forall k
      ensures k in txn'.writes ==> Numbers(log + txn'.issued, k) == UpTo(txn'.writes[k].last)
      ensures k !in txn'.writes ==> Numbers(txn'.issued, k) == []
    {
      IncrementNumbers(log, txn, key, row, k);
      assert UpTo(row.last + 1) == UpTo(row.last) + [row.last + 1];
    }
    forall i | i in txn'.issued
      ensures Rendered(txn'.writes, i)
    {
      IncrementRendered(txn, key, row, i);
    }
  }

  /** A commit appends to `log` only numbers of keys that no other transaction has locked. */
  lemma CommitNumbers(log: seq<Issued>, issued: seq<Issued>, other: seq<Issued>, k: Key)
    requires Numbers(issued, k) == []
    ensures Numbers(log + issued + other, k) == Numbers(log + other, k)
  {
    NumbersConcat(log + issued, other, k);
    NumbersConcat(log, issued, k);
    NumbersConcat(log, other, k);
  }

  lemma CommitKeepsOther(rows: map<Key, Row>, log: seq<Issued>, txn: Transaction, other: Transaction)
    requires TxnOk(rows, log, txn) && TxnOk(rows, log, other) && txn.Locks() !! other.Locks()
    ensures TxnOk(rows + txn.writes, log + txn.issued, other)
  {
    forall k | k in other.writes
      ensures Numbers(log + txn.issued + other.issued, k) == UpTo(other.writes[k].last)
    {
      assert k in other.Locks() && k !in txn.Locks();
      assert k !in txn.writes;
      CommitNumbers(log, txn.issued, other.issued, k);
    }
    forall k | k in other.writes && k in rows + txn.writes
      ensures SameLayout(other.writes[k], (rows + txn.writes)[k])
    {
      assert k in other.Locks() && k !in txn.Locks();
    }
  }

  lemma CommitKeepsInv(s: State, t: int)
    requires Inv(s) && t in s.txns
    ensures Inv(End(s.(rows := s.rows + s.txns[t].writes, log := s.log + s.txns[t].issued), t))
  {
    var txn := s.txns[t];
    var rows', log' := s.rows + txn.writes, s.log + txn.issued;
    forall k
      ensures Numbers(log', k) == UpTo(LastOf(rows', k))
    {
      NumbersConcat(s.log, txn.issued, k);
    }
    forall i | i in log'
      ensures Rendered(rows', i)
    {
      if i in s.log {
        assert Rendered(s.rows, i);
      } else {
        assert Rendered(txn.writes, i);
      }
    }
    forall u | u in s.txns && u != t
      ensures TxnOk(rows', log', s.txns[u])
    {
      CommitKeepsOther(s.rows, s.log, txn, s.txns[u]);
    }
  }

  lemma SeedKeepsInv(s: State, key: Key)
    requires Inv(s)
    ensures Inv(Next(s, Seed(key)))
  {
    var s' := Next(s, Seed(key));
    if s' != s {
      forall i | i in s.log
        ensures Rendered(s'.rows, i)
      {
        assert Rendered(s.rows, i);
      }
      forall t | t in s.txns
        ensures TxnOk(s'.rows, s.log, s.txns[t])
      {
        assert key !in s.txns[t].Locks();
      }
    }
  }

  lemma InsertKeepsInv(s: State, t: int)
    requires Inv(s) && Next(s, InsertRow(t)) != s
    ensures Inv(Next(s, InsertRow(t)))
  {
    var key := s.txns[t].phase.key;
    if key in s.rows {
      EndKeepsInv(s, t);
    } else {
      InsertKeepsTxn(s, t, key, Row(ChoosePrefix(key.kind, s.txns[t].phase.prefix), 0, PADDING));
      OneTxnKeepsInv(s, t, Next(s, InsertRow(t)).txns[t]);
    }
  }

  lemma NextKeepsInv(s: State, step: Step)
    requires Inv(s)
    ensures Inv(Next(s, step))
  {
    if Next(s, step) != s {
      match step
      case Begin(t) =>
        OneTxnKeepsInv(s, t, Transaction(map[], [], Idle));
      case SelectForUpdate(t, key, prefix) =>
        OneTxnKeepsInv(s, t, Next(s, step).txns[t]);
      case InsertRow(t) =>
        InsertKeepsInv(s, t);
      case Increment(t) =>
        IncrementKeepsTxn(s, t);
        OneTxnKeepsInv(s, t, Next(s, step).txns[t]);
      case Commit(t) =>
        CommitKeepsInv(s, t);
      case Rollback(t) =>
        EndKeepsInv(s, t);
      case Seed(key) =>
        SeedKeepsInv(s, key);
    }
  }

  lemma {:induction false} RunKeepsInv(s: State, steps: seq<Step>)
    requires Inv(s)
    ensures Inv(Run(s, steps))
    decreases |steps|
  {
    if steps != [] {
      NextKeepsInv(s, steps[0]);
      RunKeepsInv(Next(s, steps[0]), steps[1..]);
    }
  }

  lemma EmptyInv()
    ensures Inv(Empty())
  {
  }

  /**
   Main result: under every interleaving, rollbacks and racing inserts included, the committed
   numbers of one (type, year) are, in commit order, exactly 1, 2, ..., last_value.
   */
  lemma NumbersAreGapless(steps: seq<Step>, key: Key)
    ensures Numbers(Run(Empty(), steps).log, key) == UpTo(LastOf(Run(Empty(), steps).rows, key))
  {
    EmptyInv();
    RunKeepsInv(Empty(), steps);
  }

  // ---------------------------------------------------------------------------------------
  // Rendered numbers
  // ---------------------------------------------------------------------------------------

  /** One sequence row never renders two numbers alike, however long the number has grown. */
  lemma RenderInjective(prefix: string, year: nat, padding: nat, m: nat, n: nat)
    requires Render(prefix, year, padding, m) == Render(prefix, year, padding, n)
    ensures m == n
  {
    var head := prefix + (Digits(year) + "-");
    assert Render(prefix, year, padding, m) == head + ZFill(Digits(m), padding);
    assert Render(prefix, year, padding, n) == head + ZFill(Digits(n), padding);
    assert ZFill(Digits(m), padding) == Render(prefix, year, padding, m)[|head|..];
    assert ZFill(Digits(n), padding) == Render(prefix, year, padding, n)[|head|..];
    ValueOfZFill(Digits(m), padding);
    ValueOfZFill(Digits(n), padding);
    ValueOfDigits(m);
    ValueOfDigits(n);
  }

  /** With digit-free prefixes the text gives back prefix, year and number, whatever the paddings. */
  lemma RenderReadable(p: string, y: nat, w: nat, m: nat, q: string, z: nat, x: nat, n: nat)
    requires NoDigit(p) && NoDigit(q)
    requires Render(p, y, w, m) == Render(q, z, x, n)
    ensures p == q && y == z && m == n
  {
    var a, b := "-" + ZFill(Digits(m), w), "-" + ZFill(Digits(n), x);
    SplitAtFirstDigit(p, Digits(y) + a, q, Digits(z) + b);
    SplitAfterDigits(Digits(y), a, Digits(z), b);
    assert a[1..] == ZFill(Digits(m), w) && b[1..] == ZFill(Digits(n), x);
    ValueOfZFill(Digits(m), w);
    ValueOfZFill(Digits(n), x);
    ValueOfDigits(m);
    ValueOfDigits(n);
    ValueOfDigits(y);
    ValueOfDigits(z);
  }

  /** Two texts that end in a dash and digits agree on what is before that dash, and on the digits. */
  lemma SplitAtLastDash(a: string, s: string, b: string, t: string)
    requires AllDigits(s) && AllDigits(t) && a + ("-" + s) == b + ("-" + t)
    ensures a == b && s == t
  {
    var u, v := a + ("-" + s), b + ("-" + t);
    assert |a| + 1 + |s| == |u| == |b| + 1 + |t|;
    assert u[|a|] == '-' && v[|b|] == '-';
    assert forall i :: |a| < i < |u| ==> IsDigit(u[i]);
    assert forall i :: |b| < i < |v| ==> IsDigit(v[i]);
    assert a == u[..|a|] && b == v[..|b|] && s == u[|a| + 1..] && t == v[|b| + 1..];
  }

  /** Exactly when two rows render two numbers alike; the numbers are equal then. */
  lemma RenderEqualIff(p: string, y: nat, w: nat, m: nat, q: string, z: nat, x: nat, n: nat)
    ensures Render(p, y, w, m) == Render(q, z, x, n) <==>
            p + Digits(y) == q + Digits(z) && ZFill(Digits(m), w) == ZFill(Digits(n), x)
    ensures ZFill(Digits(m), w) == ZFill(Digits(n), x) ==> m == n
  {
    var s, t := ZFill(Digits(m), w), ZFill(Digits(n), x);
    assert Render(p, y, w, m) == (p + Digits(y)) + ("-" + s);
    assert Render(q, z, x, n) == (q + Digits(z)) + ("-" + t);
    if Render(p, y, w, m) == Render(q, z, x, n) {
      SplitAtLastDash(p + Digits(y), s, q + Digits(z), t);
    }
    ValueOfZFill(Digits(m), w);
    ValueOfZFill(Digits(n), x);
    ValueOfDigits(m);
    ValueOfDigits(n);
  }

  /** A prefix that ends in a digit can run into the year. */
  lemma DigitPrefixesCollide()
    ensures Render("Q1", 2026, PADDING, 7) == Render("Q", 12026, PADDING, 7)
  {
    assert Digits(2026) == "2026" by {
      assert Digits(2) == "2" && Digits(20) == "20" && Digits(202) == "202";
    }
    assert Digits(12026) == "12026" by {
      assert Digits(1) == "1" && Digits(12) == "12" && Digits(120) == "120" && Digits(1202) == "1202";
    }
    assert "Q1" + ("2026" + ("-" + ZFill(Digits(7), PADDING))) == "Q" + ("12026" + ("-" + ZFill(Digits(7), PADDING)));
  }

  /** The shipped prefixes have no digits, and no two types share one. */
  lemma DefaultPrefixesAreDistinct(a: string, b: string)
    requires a in DEFAULT_PREFIXES && b in DEFAULT_PREFIXES
    ensures NoDigit(DefaultPrefix(a))
    ensures DefaultPrefix(a) == DefaultPrefix(b) ==> a == b
  {
  }

  // ---------------------------------------------------------------------------------------
  // When two documents share a number
  // ---------------------------------------------------------------------------------------

  /** Prefix and year of a row, as printed. */
  function Head(rows: map<Key, Row>, k: Key): string
    requires k in rows
  {
    rows[k].prefix + Digits(k.year)
  }

  /** Two rows print the same head, and both have issued a number that their paddings print alike. */
  ghost predicate Collide(rows: map<Key, Row>, k: Key, l: Key) {
    && k != l && k in rows && l in rows && Head(rows, k) == Head(rows, l)
    && exists n: nat :: IssuedAlike(rows[k], rows[l], n)
  }

  predicate IssuedAlike(r: Row, q: Row, n: nat) {
    1 <= n <= r.last && n <= q.last && ZFill(Digits(n), r.padding) == ZFill(Digits(n), q.padding)
  }

  lemma {:induction false} FindNumber(log: seq<Issued>, key: Key, n: nat) returns (i: nat)
    requires n in Numbers(log, key)
    ensures i < |log| && log[i].key == key && log[i].n == n
  {
    var m := |log| - 1;
    assert log == log[..m] + [log[m]];
    NumbersOne(log[..m], log[m], key);
    if log[m].key == key && log[m].n == n {
      i := m;
    } else {
      i := FindNumber(log[..m], key, n);
    }
  }

  lemma {:induction false} UpToHolds(n: nat, k: nat)
    ensures k in UpTo(n) <==> 1 <= k <= n
  {
    if n > 0 {
      UpToHolds(n - 1, k);
    }
  }

  /** The text of a committed number, and the number's place in its row's range. */
  lemma CommittedNumber(steps: seq<Step>, i: nat)
    requires i < |Run(Empty(), steps).log|
    ensures var s := Run(Empty(), steps); var x := s.log[i];
      && x.key in s.rows && 1 <= x.n <= s.rows[x.key].last
      && x.text == Render(s.rows[x.key].prefix, x.key.year, s.rows[x.key].padding, x.n)
  {
    var s := Run(Empty(), steps);
    EmptyInv();
    RunKeepsInv(Empty(), steps);
    assert s.log[i] in s.log;
    assert Rendered(s.rows, s.log[i]);
    NumberAt(s.log, i);
    UpToHolds(s.rows[s.log[i].key].last, s.log[i].n);
    assert Numbers(s.log, s.log[i].key) == UpTo(LastOf(s.rows, s.log[i].key));
  }

  ghost predicate AllDifferent(log: seq<Issued>) {
    forall i, j :: 0 <= i < j < |log| ==> log[i].text != log[j].text
  }

  /** Two entries of one row have different numbers, hence different texts. */
  lemma SameRowDiffers(steps: seq<Step>, i: nat, j: nat)
    requires i < j < |Run(Empty(), steps).log| && Run(Empty(), steps).log[i].key == Run(Empty(), steps).log[j].key
    ensures Run(Empty(), steps).log[i].text != Run(Empty(), steps).log[j].text
  {
    var log, rows := Run(Empty(), steps).log, Run(Empty(), steps).rows;
    var key := log[i].key;
    NumbersAreGapless(steps, key);
    CommittedNumber(steps, i);
    CommittedNumber(steps, j);
    NumberAt(log, i);
    NumberAt(log, j);
    EarlierHasFewer(log, i, j);
    UpToAt(LastOf(rows, key), |Numbers(log[..i], key)|);
    UpToAt(LastOf(rows, key), |Numbers(log[..j], key)|);
    if log[i].text == log[j].text {
      RenderInjective(rows[key].prefix, key.year, rows[key].padding, log[i].n, log[j].n);
    }
  }

  lemma {:induction false} UpToAt(n: nat, k: nat)
    requires k < n
    ensures UpTo(n)[k] == k + 1
  {
    if k < n - 1 {
      UpToAt(n - 1, k);
    }
  }

  /**
   Main result: over every run, whatever the types and prefixes, the committed numbers are all
   rendered differently if and only if no two rows collide.
   */
  lemma RenderedNumbersDifferIff(steps: seq<Step>)
    ensures AllDifferent(Run(Empty(), steps).log) <==> !exists k, l :: Collide(Run(Empty(), steps).rows, k, l)
  {
    var log, rows := Run(Empty(), steps).log, Run(Empty(), steps).rows;
    if k, l :| Collide(rows, k, l) {
      CollidingRowsMeet(steps, k, l);
    }
    if i, j :| 0 <= i < j < |log| && log[i].text == log[j].text {
      MeetingRowsCollide(steps, i, j);
    }
  }

  lemma CollidingRowsMeet(steps: seq<Step>, k: Key, l: Key)
    requires Collide(Run(Empty(), steps).rows, k, l)
    ensures !AllDifferent(Run(Empty(), steps).log)
  {
    var log, rows := Run(Empty(), steps).log, Run(Empty(), steps).rows;
    var n: nat :| IssuedAlike(rows[k], rows[l], n);
    NumbersAreGapless(steps, k);
    NumbersAreGapless(steps, l);
    UpToHolds(rows[k].last, n);
    UpToHolds(rows[l].last, n);
    var i := FindNumber(log, k, n);
    var j := FindNumber(log, l, n);
    CommittedNumber(steps, i);
    CommittedNumber(steps, j);
    RenderEqualIff(rows[k].prefix, k.year, rows[k].padding, n, rows[l].prefix, l.year, rows[l].padding, n);
    assert log[i].text == log[j].text && i != j;
    assert i < j || j < i;
  }

  lemma MeetingRowsCollide(steps: seq<Step>, i: nat, j: nat)
    requires i < j < |Run(Empty(), steps).log| && Run(Empty(), steps).log[i].text == Run(Empty(), steps).log[j].text
    ensures Collide(Run(Empty(), steps).rows, Run(Empty(), steps).log[i].key, Run(Empty(), steps).log[j].key)
  {
    var log, rows := Run(Empty(), steps).log, Run(Empty(), steps).rows;
    var k, l := log[i].key, log[j].key;
    CommittedNumber(steps, i);
    CommittedNumber(steps, j);
    if k == l {
      SameRowDiffers(steps, i, j);
    }
    RenderEqualIff(rows[k].prefix, k.year, rows[k].padding, log[i].n, rows[l].prefix, l.year, rows[l].padding, log[j].n);
    assert IssuedAlike(rows[k], rows[l], log[i].n);
  }

  /** Types that share a prefix do collide: listed or not, by the first two letters or otherwise. */
  lemma SharedPrefixCollides(a: string, b: string, year: nat) returns (steps: seq<Step>)
    requires a != b && DefaultPrefix(a) == DefaultPrefix(b)
    ensures |Run(Empty(), steps).log| == 2
    ensures Run(Empty(), steps).log[0].key == Key(a, year) && Run(Empty(), steps).log[1].key == Key(b, year)
    ensures Run(Empty(), steps).log[0].text == Run(Empty(), steps).log[1].text
  {
    var k, l := Key(a, year), Key(b, year);
    steps := [Begin(0)] + (CallSteps(0, k, None) + (CallSteps(0, l, None) + [Commit(0)]));
    var s0 := Next(Empty(), Begin(0));
    RunTogether(Empty(), [Begin(0)], CallSteps(0, k, None) + (CallSteps(0, l, None) + [Commit(0)]));
    RunOne(Empty(), Begin(0));
    RunTogether(s0, CallSteps(0, k, None), CallSteps(0, l, None) + [Commit(0)]);
    CallAlone(s0, 0, k, None);
    var s1 := Run(s0, CallSteps(0, k, None));
    RunTogether(s1, CallSteps(0, l, None), [Commit(0)]);
    assert s1.txns.Keys == {0};
    CallAlone(s1, 0, l, None);
    RunOne(Run(s1, CallSteps(0, l, None)), Commit(0));
  }

  lemma RunOne(s: State, step: Step)
    ensures Run(s, [step]) == Next(s, step)
  {
    assert [step][1..] == [];
    assert Run(Next(s, step), []) == Next(s, step);
  }

  lemma {:induction false} RunTogether(s: State, a: seq<Step>, b: seq<Step>)
    ensures Run(s, a + b) == Run(Run(s, a), b)
    decreases |a|
  {
    if a == [] {
      assert a + b == b;
    } else {
      assert (a + b)[1..] == a[1..] + b;
      RunTogether(Next(s, a[0]), a[1..], b);
    }
  }

  // ---------------------------------------------------------------------------------------
  // No two documents share a number
  // ---------------------------------------------------------------------------------------

  /** Numbers are requested for the shipped document types only, without a prefix of their own. */
  ghost predicate UsesDefaults(step: Step) {
    match step
    case SelectForUpdate(_, key, prefix) => key.kind in DEFAULT_PREFIXES && prefix == None
    case Seed(key) => key.kind in DEFAULT_PREFIXES
    case _ => true
  }

  ghost predicate DefaultRows(rows: map<Key, Row>) {
    forall k :: k in rows ==> k.kind in DEFAULT_PREFIXES && rows[k].prefix == DefaultPrefix(k.kind)
  }

  ghost predicate DefaultState(s: State) {
    && DefaultRows(s.rows)
    && forall t :: t in s.txns ==>
         && DefaultRows(s.txns[t].writes)
         && (s.txns[t].phase.Missing? ==> s.txns[t].phase.key.kind in DEFAULT_PREFIXES && s.txns[t].phase.prefix == None)
  }

  lemma NextKeepsDefaults(s: State, step: Step)
    requires DefaultState(s) && UsesDefaults(step)
    ensures DefaultState(Next(s, step))
  {
    match step
    case InsertRow(t) =>
      if t in s.txns && s.txns[t].phase.Missing? {
        var key := s.txns[t].phase.key;
        assert ChoosePrefix(key.kind, None) == DefaultPrefix(key.kind);
      }
    case Increment(t) =>
      if t in s.txns && s.txns[t].phase.Holding? && (s.txns[t].phase.key in s.txns[t].writes || s.txns[t].phase.key in s.rows) {
        var txn := s.txns[t];
        var row := See(s, txn, txn.phase.key);
        assert DefaultRows(Incremented(txn, txn.phase.key, row).writes);
      }
    case Commit(t) =>
      assert t in s.txns ==> DefaultRows(s.rows + s.txns[t].writes);
    case Begin(_) =>
    case SelectForUpdate(_, _, _) =>
    case Rollback(_) =>
    case Seed(_) =>
  }

  lemma {:induction false} RunKeepsDefaults(s: State, steps: seq<Step>)
    requires Inv(s) && DefaultState(s) && forall step :: step in steps ==> UsesDefaults(step)
    ensures DefaultState(Run(s, steps))
    decreases |steps|
  {
    if steps != [] {
      assert steps[0] in steps;
      NextKeepsInv(s, steps[0]);
      NextKeepsDefaults(s, steps[0]);
      RunKeepsDefaults(Next(s, steps[0]), steps[1..]);
    }
  }

  /** The entry at position `i` of the log has its own place among the numbers of its key. */
  lemma NumberAt(log: seq<Issued>, i: nat)
    requires i < |log|
    ensures |Numbers(log[..i], log[i].key)| < |Numbers(log, log[i].key)|
    ensures Numbers(log, log[i].key)[|Numbers(log[..i], log[i].key)|] == log[i].n
  {
    var key := log[i].key;
    NumbersOne(log[..i], log[i], key);
    NumbersConcat(log[..i] + [log[i]], log[i + 1..], key);
    assert log == log[..i] + [log[i]] + log[i + 1..];
  }

  lemma EarlierHasFewer(log: seq<Issued>, i: nat, j: nat)
    requires i < j < |log| && log[i].key == log[j].key
    ensures |Numbers(log[..i], log[i].key)| < |Numbers(log[..j], log[i].key)|
  {
    NumberAt(log[..j], i);
    assert log[..j][..i] == log[..i];
  }

  /**
   Main result: as long as only the shipped types and prefixes are used, no two committed
   numbers are ever rendered alike, over all types and all years.
   */
  lemma RenderedNumbersAreUnique(steps: seq<Step>, i: nat, j: nat)
    requires forall step :: step in steps ==> UsesDefaults(step)
    requires i < j < |Run(Empty(), steps).log|
    ensures Run(Empty(), steps).log[i].text != Run(Empty(), steps).log[j].text
  {
    EmptyInv();
    RunKeepsInv(Empty(), steps);
    RunKeepsDefaults(Empty(), steps);
    var s := Run(Empty(), steps);
    var a, b := s.log[i], s.log[j];
    assert Rendered(s.rows, a) && Rendered(s.rows, b);
    if a.text == b.text {
      var r, q := s.rows[a.key], s.rows[b.key];
      DefaultPrefixesAreDistinct(a.key.kind, b.key.kind);
      DefaultPrefixesAreDistinct(b.key.kind, a.key.kind);
      RenderReadable(r.prefix, a.key.year, r.padding, a.n, q.prefix, b.key.year, q.padding, b.n);
      assert a.key == b.key;
      NumberAt(s.log, i);
      NumberAt(s.log, j);
      EarlierHasFewer(s.log, i, j);
    }
  }

  // ---------------------------------------------------------------------------------------
  // allocate_number
  // ---------------------------------------------------------------------------------------

  /** `year or datetime.now(UTC).year` */
  function PeriodYear(year: Option<nat>, now: nat): nat {
    if year.Some? && year.value != 0 then year.value else now
  }

  /** The statements of one call; the second does nothing when the row was found. */
  function CallSteps(t: int, key: Key, prefix: Option<string>): seq<Step> {
    [SelectForUpdate(t, key, prefix), InsertRow(t), Increment(t)]
  }

  /** The row an undisturbed call increments. */
  function Visible(s: State, t: int, key: Key, prefix: Option<string>): Row
    requires t in s.txns
  {
    if key in s.txns[t].writes || key in s.rows then See(s, s.txns[t], key)
    else Row(ChoosePrefix(key.kind, prefix), 0, PADDING)
  }

  lemma CallAlone(s: State, t: int, key: Key, prefix: Option<string>)
    requires t in s.txns && s.txns[t].phase.Idle? && Free(s, t, key)
    ensures Run(s, CallSteps(t, key, prefix)) == Put(s, t, Incremented(s.txns[t], key, Visible(s, t, key, prefix)))
  {
    var steps := CallSteps(t, key, prefix);
    var s1 := Next(s, steps[0]);
    var s2 := Next(s1, steps[1]);
    assert steps[1..] == [InsertRow(t), Increment(t)] && steps[1..][1..] == [Increment(t)];
    assert [Increment(t)][1..] == [];
    assert Run(s2, [Increment(t)]) == Next(s2, Increment(t));
    if key in s.txns[t].writes || key in s.rows {
      FoundAlone(s, t, key, prefix);
    } else {
      MissingAlone(s, t, key, prefix);
    }
  }

  /** The row exists: it is locked and incremented. */
  lemma FoundAlone(s: State, t: int, key: Key, prefix: Option<string>)
    requires t in s.txns && s.txns[t].phase.Idle? && Free(s, t, key) && (key in s.txns[t].writes || key in s.rows)
    ensures var s1 := Next(s, SelectForUpdate(t, key, prefix));
      && Next(s1, InsertRow(t)) == s1
      && Next(s1, Increment(t)) == Put(s, t, Incremented(s.txns[t], key, See(s, s.txns[t], key)))
  {
    var held := s.txns[t].(phase := Holding(key));
    var s1 := Put(s, t, held);
    assert Next(s, SelectForUpdate(t, key, prefix)) == s1;
    PutTwice(s, t, held, Incremented(held, key, See(s, held, key)));
  }

  /** The row is missing: it is inserted at zero and incremented. */
  lemma MissingAlone(s: State, t: int, key: Key, prefix: Option<string>)
    requires t in s.txns && s.txns[t].phase.Idle? && Free(s, t, key) && key !in s.txns[t].writes && key !in s.rows
    ensures Next(Next(Next(s, SelectForUpdate(t, key, prefix)), InsertRow(t)), Increment(t)) ==
            Put(s, t, Incremented(s.txns[t], key, Row(ChoosePrefix(key.kind, prefix), 0, PADDING)))
  {
    var txn, row := s.txns[t], Row(ChoosePrefix(key.kind, prefix), 0, PADDING);
    var missing := txn.(phase := Missing(key, prefix));
    var held := Transaction(txn.writes[key := row], txn.issued, Holding(key));
    var s1, s2 := Put(s, t, missing), Put(s, t, held);
    assert Next(s, SelectForUpdate(t, key, prefix)) == s1;
    assert Free(s1, t, key);
    PutTwice(s, t, missing, held);
    assert Next(s1, InsertRow(t)) == s2;
    PutTwice(s, t, held, Incremented(held, key, row));
    assert held.writes[key := row.(last := 1)] == txn.writes[key := row.(last := 1)];
  }

  lemma PutTwice(s: State, t: int, first: Transaction, second: Transaction)
    ensures Put(Put(s, t, first), t, second) == Put(s, t, second)
  {
  }

  /** How a number reads: prefix, year, a dash, and the number with zeros in front up to the padding. */
  lemma RenderIs(prefix: string, year: nat, padding: nat, n: nat) returns (digits: string)
    ensures Render(prefix, year, padding, n) == prefix + Digits(year) + "-" + digits
    ensures AllDigits(digits) && Value(digits) == n
    ensures |digits| == if |Digits(n)| < padding then padding else |Digits(n)|
  {
    digits := ZFill(Digits(n), padding);
    ValueOfZFill(Digits(n), padding);
    ValueOfDigits(n);
    assert prefix + (Digits(year) + ("-" + digits)) == prefix + Digits(year) + "-" + digits;
  }

  /** The prefix of a new row: the one given unless blank, else the shipped one, else two letters of the type. */
  predicate IsPrefixOf(kind: string, given: Option<string>, prefix: string) {
    if given.Some? && given.value != "" then prefix == given.value
    else if kind in DEFAULT_PREFIXES then prefix == DEFAULT_PREFIXES[kind]
    else if |kind| > 2 then prefix == [kind[0], kind[1]]
    else prefix == kind
  }

  lemma FirstDigits()
    ensures ZFill(Digits(1), 6) == "000001"
  {
    assert Digits(1) == "1";
    assert ['0'] + "1" == "01" && ['0'] + "01" == "001" && ['0'] + "001" == "0001";
    assert ['0'] + "0001" == "00001" && ['0'] + "00001" == "000001";
    assert ZFill("000001", 6) == "000001";
    assert ZFill("00001", 6) == "000001";
    assert ZFill("0001", 6) == "000001";
    assert ZFill("001", 6) == "000001";
    assert ZFill("01", 6) == "000001";
    assert ZFill("1", 6) == "000001";
  }

  /** The first number of a type and year: one, six digits wide, behind the prefix of the new row. */
  lemma FirstNumberIs(s: State, t: int, key: Key, given: Option<string>) returns (prefix: string, txn: Transaction)
    requires t in s.txns && s.txns[t].phase.Idle? && Free(s, t, key) && key !in s.txns[t].writes && key !in s.rows
    ensures IsPrefixOf(key.kind, given, prefix)
    ensures Run(s, CallSteps(t, key, given)) == Put(s, t, txn)
    ensures txn.issued == s.txns[t].issued + [Issued(key, 1, prefix + Digits(key.year) + "-" + "000001")]
    ensures txn.writes == s.txns[t].writes[key := Row(prefix, 1, 6)]
  {
    prefix := ChoosePrefix(key.kind, given);
    CallAlone(s, t, key, given);
    txn := Incremented(s.txns[t], key, Row(prefix, 0, PADDING));
    FirstDigits();
    assert prefix + (Digits(key.year) + ("-" + "000001")) == prefix + Digits(key.year) + "-" + "000001";
  }

  /** Every further number: one more than the row's last, with the row's own prefix and padding. */
  lemma NextNumberIs(s: State, t: int, key: Key, given: Option<string>) returns (row: Row, digits: string, txn: Transaction)
    requires t in s.txns && s.txns[t].phase.Idle? && Free(s, t, key) && (key in s.txns[t].writes || key in s.rows)
    ensures row == if key in s.txns[t].writes then s.txns[t].writes[key] else s.rows[key]
    ensures Run(s, CallSteps(t, key, given)) == Put(s, t, txn)
    ensures txn.issued == s.txns[t].issued + [Issued(key, row.last + 1, row.prefix + Digits(key.year) + "-" + digits)]
    ensures txn.writes == s.txns[t].writes[key := Row(row.prefix, row.last + 1, row.padding)]
    ensures AllDigits(digits) && Value(digits) == row.last + 1
    ensures |digits| == if |Digits(row.last + 1)| < row.padding then row.padding else |Digits(row.last + 1)|
  {
    CallAlone(s, t, key, given);
    row := See(s, s.txns[t], key);
    txn := Incremented(s.txns[t], key, row);
    digits := RenderIs(row.prefix, key.year, row.padding, row.last + 1);
  }

  class Database {
    var rows: map<Key, Row>
    var log: seq<Issued>
    var txns: map<int, Transaction>

    function Snapshot(): State
      reads this
    {
      State(rows, log, txns)
    }

    /** One undisturbed call inside transaction `t`. */
    method AllocateNumber(t: int, documentType: string, prefix: Option<string>, year: Option<nat>, now: nat)
      returns (number: string)
      requires t in txns && txns[t].phase.Idle? && Free(Snapshot(), t, Key(documentType, PeriodYear(year, now)))
      modifies this`txns
      ensures Snapshot() == Run(old(Snapshot()), CallSteps(t, Key(documentType, PeriodYear(year, now)), prefix))
      ensures t in txns && 0 < |txns[t].issued| && txns[t].issued[|txns[t].issued| - 1].text == number
      ensures var issued := txns[t].issued[|txns[t].issued| - 1];
        && issued.key.kind == documentType
        && (year.Some? && year.value != 0 ==> issued.key.year == year.value)
        && (year.None? || year.value == 0 ==> issued.key.year == now)
    {
      var periodYear := now;
      if year.Some? && year.value != 0 {
        periodYear := year.value;
      }
      var key := Key(documentType, periodYear);
      CallAlone(Snapshot(), t, key, prefix);
      var txn := txns[t];
      var sequence: Row;
      if key in txn.writes {
        sequence := txn.writes[key];
      } else if key in rows {
        sequence := rows[key];
      } else {
        sequence := Row(ChoosePrefix(documentType, prefix), 0, PADDING);
      }
      sequence := sequence.(last := sequence.last + 1);
      number := Render(sequence.prefix, periodYear, sequence.padding, sequence.last);
      txns := txns[t := Transaction(txn.writes[key := sequence], txn.issued + [Issued(key, sequence.last, number)], Idle)];
    }
  }
}
