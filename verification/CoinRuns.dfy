/** Whole runs of the coin auditor, and sequences of runs over growing exchange tables. */
module CoinRuns {
  import opened Sums
  import opened CoinLedger
  import opened Transaction

  /** The auditor database between runs (with the observer's books alongside). */
  datatype Stored = Stored(db: map<Hash, Denom>, totals: Totals, progress: Progress, fees: Fees, books: Books)

  /** The fee incomes that outlive a run. */
  datatype Fees = Fees(deposit: nat, melt: nat, refund: nat)

  const NO_TOTALS := Totals(0, 0, 0)
  const NO_PROGRESS := Progress(0, 0, 0, 0, 0, 0)
  const NO_FEES := Fees(0, 0, 0)
  const NO_BOOKS := Books(0, 0, 0, 0, 0, 0, 0)
  const FIRST_TIME := Stored(map[], NO_TOTALS, NO_PROGRESS, NO_FEES, NO_BOOKS)

  /** A run continues with the stored fee incomes and starts its findings from nothing. */
  function BeginIncome(f: Fees): Income { Income(f.deposit, f.melt, f.refund, 0, 0, 0, 0) }

  function Begin(a: Stored): State {
    State(a.db, map[], a.totals, a.progress, BeginIncome(a.fees), {}, {}, a.books)
  }

  ghost predicate StoredBalanced(a: Stored) { Balanced(Begin(a)) }

  /** The exchange's tables, one per kind of row. */
  type Tables = map<Kind, seq<Row>>

  function RowsOf(t: Tables, k: Kind): seq<Row> { if k in t then t[k] else [] }

  predicate Ascending(rows: seq<Row>) {
    forall i, j | 0 <= i < j < |rows| :: rows[i].id < rows[j].id
  }

  predicate WellFormed(t: Tables) {
    forall k: Kind ::
      Ascending(RowsOf(t, k)) && forall r | r in RowsOf(t, k) :: KindOf(r) == k
  }

  /** How many leading rows lie below identifier `n`. */
  function Cut(rows: seq<Row>, n: nat): (c: nat)
    ensures c <= |rows|
  {
    if rows == [] || rows[0].id >= n then 0 else 1 + Cut(rows[1..], n)
  }

  /** In an ascending table, `Cut` separates the rows below `n` from those at or above it. */
  lemma {:induction false} CutSeparates(rows: seq<Row>, n: nat)
    requires Ascending(rows)
    ensures forall i | 0 <= i < |rows| :: rows[i].id < n <==> i < Cut(rows, n)
  {
    if rows != [] && rows[0].id < n {
      CutSeparates(rows[1..], n);
      assert forall i | 0 < i < |rows| :: rows[i] == rows[1..][i - 1];
    }
  }

  lemma {:induction false} CutIs(rows: seq<Row>, n: nat, c: nat)
    requires c <= |rows|
    requires forall i | 0 <= i < |rows| :: rows[i].id < n <==> i < c
    ensures Cut(rows, n) == c
  {
    if c > 0 {
      CutIs(rows[1..], n, c - 1);
    }
  }

  /** What a query for the rows from `n` on yields. */
  function Above(rows: seq<Row>, n: nat): seq<Row> { rows[Cut(rows, n)..] }

  /** The scan of one table, from its checkpoint to its end. */
  type TableScan = (State, Kind) -> Outcome

  function TableScanOf(cb: Callback, t: Tables): TableScan {
    (st: State, k: Kind) => Scan(cb, st, Above(RowsOf(t, k), NextId(st.progress, k)))
  }

  /** The tables are replayed in this fixed order, whatever happened first. */
  function InTableOrder(scan: TableScan, st: State): Outcome {
    var st1 :- scan(st, KWithdraw);
    var st2 :- scan(st1, KRefund);
    var st3 :- scan(st2, KRecoupRefresh);
    var st4 :- scan(st3, KRecoup);
    var st5 :- scan(st4, KMelt);
    scan(st5, KDeposit)
  }

  /** The three tables scanned first, and the other three. */
  function FirstTables(scan: TableScan, st: State): Outcome {
    var st1 :- scan(st, KWithdraw);
    var st2 :- scan(st1, KRefund);
    scan(st2, KRecoupRefresh)
  }

  function LastTables(scan: TableScan, st: State): Outcome {
    var st4 :- scan(st, KRecoup);
    var st5 :- scan(st4, KMelt);
    scan(st5, KDeposit)
  }

  lemma {:induction false} InTwoParts(scan: TableScan, st: State)
    ensures var first := FirstTables(scan, st);
      InTableOrder(scan, st) == if first.Abort? then Abort else LastTables(scan, first.st)
  {
  }

  function ScanTables(cb: Callback, t: Tables, st: State): Outcome {
    InTableOrder(TableScanOf(cb, t), st)
  }

  /** One analysis: replay the new rows table by table, then write the denominations back. */
  function Analyze(env: Env, now: nat, t: Tables, order: seq<Hash>, a: Stored): Outcome {
    WriteBack(env, now, order, ScanTables(CallbackOf(env), t, Begin(a)))
  }

  function WriteBack(env: Env, now: nat, order: seq<Hash>, scanned: Outcome): Outcome {
    var st :- scanned;
    Sync(env, now, st, order)
  }

  function Store(st: State): Stored {
    Stored(st.db, st.totals, st.progress,
           Fees(st.income.depositFees, st.income.meltFees, st.income.refundFees), st.books)
  }

  // ----- the ledger identities over every reachable state -----

  lemma {:induction false} InTableOrderKeeps(scan: TableScan, inv: State -> bool, st: State)
    requires forall st, k | inv(st) :: scan(st, k).Abort? || (scan(st, k).Next? && inv(scan(st, k).st))
    requires inv(st)
    ensures var out := InTableOrder(scan, st); out.Abort? || (out.Next? && inv(out.st))
  {
  }

  /** What every callback keeps, the scan of all tables keeps. */
  lemma {:induction false} ScanTablesKeeps(cb: Callback, inv: State -> bool, t: Tables, st: State)
    requires forall st, row | inv(st) && !cb(st, row).Abort? :: inv(cb(st, row).st)
    requires inv(st)
    ensures var out := ScanTables(cb, t, st); out.Abort? || (out.Next? && inv(out.st))
  {
    var scan := TableScanOf(cb, t);
    forall st, k | inv(st) ensures scan(st, k).Abort? || (scan(st, k).Next? && inv(scan(st, k).st)) {
      ScanKeeps(cb, inv, st, Above(RowsOf(t, k), NextId(st.progress, k)));
    }
    InTableOrderKeeps(scan, inv, st);
  }

  lemma {:induction false} ScanTablesKeepsBalanced(env: Env, t: Tables, st: State)
    requires Balanced(st)
    ensures var out := ScanTables(CallbackOf(env), t, st); out.Abort? || (out.Next? && Balanced(out.st))
  {
    forall st, row | Balanced(st) && !CallbackOf(env)(st, row).Abort?
      ensures Balanced(CallbackOf(env)(st, row).st)
    {
      StepKeepsBalanced(env, st, row);
    }
    ScanTablesKeeps(CallbackOf(env), Balanced, t, st);
  }

  /**
   * A run started on balanced books either dies on a row or ends balanced; the write-back
   * never dies, in any order.
   */
  lemma {:induction false} AnalyzeKeepsBalanced(env: Env, now: nat, t: Tables, order: seq<Hash>, a: Stored)
    requires StoredBalanced(a)
    ensures Analyze(env, now, t, order, a).Abort? <==> ScanTables(CallbackOf(env), t, Begin(a)).Abort?
    ensures var out := Analyze(env, now, t, order, a);
      !out.Abort? && Visits(order, ScanTables(CallbackOf(env), t, Begin(a)).st)
      ==> out.st.mem == map[] && StoredBalanced(Store(out.st))
  {
    ScanTablesKeepsBalanced(env, t, Begin(a));
    var scanned := ScanTables(CallbackOf(env), t, Begin(a));
    if !scanned.Abort? {
      SyncKeepsBalanced(env, now, scanned.st, order);
      var st := Sync(env, now, scanned.st, order).st;
      if Visits(order, scanned.st) {
        assert st.mem.Keys == {};
        assert View(st) == View(Begin(Store(st)));
      }
    }
  }

  /** One attempted run: what it saw, the order of its write-back, and how the commits went. */
  datatype Attempt = Attempt(
    env: Env,
    now: nat,
    tables: Tables,
    order: seq<Hash>,
    edbCommit: Status,
    adbCommit: Status)

  /** What the auditor database holds once the analysis has ended with `out`. */
  function Conclude(x: Attempt, a: Stored, out: Outcome): Stored {
    var run := if out.Abort? then Analysis(HardError, a) else Analysis(OneResult, Store(out.st));
    Transact(a, run, x.edbCommit, x.adbCommit).stored
  }

  function RunOnce(x: Attempt, a: Stored): Stored {
    Conclude(x, a, Analyze(x.env, x.now, x.tables, x.order, a))
  }

  lemma {:induction false} ConcludeKeeps(x: Attempt, a: Stored, out: Outcome, inv: Stored -> bool)
    requires inv(a) && (!out.Abort? ==> inv(Store(out.st)))
    ensures inv(Conclude(x, a, out))
  {
  }

  /** A run, as something that can be repeated. */
  type Runner = (Attempt, Stored) -> Stored

  function RunMany(run: Runner, xs: seq<Attempt>, a: Stored): Stored
    decreases |xs|
  {
    if xs == [] then a else RunMany(run, xs[1..], run(xs[0], a))
  }

  ghost predicate Plausible(x: Attempt, a: Stored) {
    var scanned := ScanTables(CallbackOf(x.env), x.tables, Begin(a));
    !scanned.Abort? ==> Visits(x.order, scanned.st)
  }

  /** Every attempt in the history visits the records it holds in memory. */
  ghost predicate AllPlausible(run: Runner, plausible: (Attempt, Stored) -> bool, xs: seq<Attempt>, a: Stored)
    decreases |xs|
  {
    xs != [] ==> plausible(xs[0], a) && AllPlausible(run, plausible, xs[1..], run(xs[0], a))
  }

  lemma {:induction false} RunManyKeeps(
    run: Runner, plausible: (Attempt, Stored) -> bool, inv: Stored -> bool, xs: seq<Attempt>, a: Stored)
    requires forall x, s | plausible(x, s) && inv(s) :: inv(run(x, s))
    requires inv(a) && AllPlausible(run, plausible, xs, a)
    ensures inv(RunMany(run, xs, a))
    decreases |xs|
  {
    if xs != [] {
      RunManyKeeps(run, plausible, inv, xs[1..], run(xs[0], a));
    }
  }

  lemma {:induction false} RunOnceKeepsBalanced(x: Attempt, a: Stored)
    requires Plausible(x, a) && StoredBalanced(a)
    ensures StoredBalanced(RunOnce(x, a))
  {
    AnalyzeKeepsBalanced(x.env, x.now, x.tables, x.order, a);
    ConcludeKeeps(x, a, Analyze(x.env, x.now, x.tables, x.order, a), StoredBalanced);
  }

  /**
   * Cross-ledger identity, risk, recoup and coin count identities, over any number of runs on any tables, with any
   * interleaving of failures: starting from an empty auditor database, the stored
   * denominations always explain the stored totals.
   */
  lemma {:induction false} LedgerIdentities(xs: seq<Attempt>)
    requires AllPlausible(RunOnce, Plausible, xs, FIRST_TIME)
    ensures var a := RunMany(RunOnce, xs, FIRST_TIME);
      && Total(a.db, NetOf) + a.books.revenue - a.books.lossAtExpiry
         == a.totals.escrow - a.books.unsubtracted + a.books.recoupCredits
      && Total(a.db, RiskOf) == a.totals.risk
      && Total(a.db, RecoupOf) + a.books.recoupAtExpiry == a.totals.recoupLoss
      && Total(a.db, IssuedOf) + a.books.coinsAtExpiry == a.books.coins
  {
    assert View(Begin(FIRST_TIME)) == map[];
    forall x, s | Plausible(x, s) && StoredBalanced(s) ensures StoredBalanced(RunOnce(x, s)) {
      RunOnceKeepsBalanced(x, s);
    }
    RunManyKeeps(RunOnce, Plausible, StoredBalanced, xs, FIRST_TIME);
    var a := RunMany(RunOnce, xs, FIRST_TIME);
    assert View(Begin(a)) == a.db;
  }

  // ----- every row is handed to its callback exactly once -----

  /** How many of `rows` a scan hands to the callback before the table ends or is ended. */
  function Handed(env: Env, rows: seq<Row>): (n: nat)
    ensures n <= |rows|
    ensures rows != [] ==> n > 0
  {
    if rows == [] then 0
    else if UnknownRefund(env, rows[0]) then 1
    else 1 + Handed(env, rows[1..])
  }

  /** The checkpoint after scanning `rows` from checkpoint `n`: just past the last row handed out. */
  function NewCheckpoint(env: Env, rows: seq<Row>, n: nat): nat {
    if rows == [] then n else rows[Handed(env, rows) - 1].id + 1
  }

  /** A callback moves its own table's checkpoint past the row, and dies only on a fatal or stale row. */
  ghost predicate Checkpoints(env: Env, cb: Callback) {
    forall st, row {:trigger cb(st, row)} ::
      var out, k := cb(st, row), KindOf(row);
      && (out.Abort? <==> Fatal(env, row) || row.id < NextId(st.progress, k))
      && (out.EndTable? ==> UnknownRefund(env, row))
      && (out.Next? ==> !UnknownRefund(env, row))
      && (!out.Abort? ==> out.st.progress == Advance(st.progress, k, row.id))
  }

  lemma {:induction false} CallbackCheckpoints(env: Env)
    ensures Checkpoints(env, CallbackOf(env))
  {
    forall st, row | !Fatal(env, row)
      ensures ApplyAll(Pass(env, st, row), Moves(env, row)).progress == Advance(st.progress, KindOf(row), row.id)
    {
      ApplyAllFrame(Pass(env, st, row), Moves(env, row));
    }
  }

  lemma {:induction false} ScanProgress(env: Env, cb: Callback, st: State, rows: seq<Row>, k: Kind)
    requires Checkpoints(env, cb) && Ascending(rows)
    requires forall r | r in rows :: KindOf(r) == k && r.id >= NextId(st.progress, k)
    ensures Scan(cb, st, rows).Abort? ==> exists r | r in rows :: Fatal(env, r)
    ensures var out := Scan(cb, st, rows);
      !out.Abort? ==>
        && NextId(out.st.progress, k) == NewCheckpoint(env, rows, NextId(st.progress, k))
        && forall j | j != k :: NextId(out.st.progress, j) == NextId(st.progress, j)
    decreases |rows|
  {
    if rows != [] {
      var out := cb(st, rows[0]);
      if out.Next? {
        RowsAfterFirst(env, rows);
        ScanProgress(env, cb, out.st, rows[1..], k);
      }
      assert rows[0] in rows;
    }
  }

  lemma {:induction false} RowsAfterFirst(env: Env, rows: seq<Row>)
    requires rows != [] && Ascending(rows)
    ensures Ascending(rows[1..]) && forall r | r in rows[1..] :: r in rows && r.id >= rows[0].id + 1
    ensures !UnknownRefund(env, rows[0]) ==>
      forall n :: NewCheckpoint(env, rows, n) == NewCheckpoint(env, rows[1..], rows[0].id + 1)
  {
    forall r | r in rows[1..] ensures r in rows && r.id >= rows[0].id + 1 {
      var i :| 0 <= i < |rows[1..]| && rows[1..][i] == r;
      assert rows[i + 1] == r;
    }
  }

  lemma {:induction false} AboveIsWellFormed(t: Tables, k: Kind, n: nat)
    requires WellFormed(t)
    ensures Ascending(Above(RowsOf(t, k), n))
    ensures forall r | r in Above(RowsOf(t, k), n) :: KindOf(r) == k && r.id >= n
  {
    CutSeparates(RowsOf(t, k), n);
  }

  /** Scanning a table moves its own checkpoint to where `next` says, and no other. */
  ghost predicate MovesOwnCheckpoint(scan: TableScan, next: (Kind, nat) -> nat) {
    forall st, k {:trigger scan(st, k)} | !scan(st, k).Abort? ::
      && NextId(scan(st, k).st.progress, k) == next(k, NextId(st.progress, k))
      && forall j | j != k :: NextId(scan(st, k).st.progress, j) == NextId(st.progress, j)
  }

  lemma {:induction false} InTableOrderProgress(scan: TableScan, next: (Kind, nat) -> nat, st: State, k: Kind)
    requires MovesOwnCheckpoint(scan, next) && !InTableOrder(scan, st).Abort?
    ensures NextId(InTableOrder(scan, st).st.progress, k) == next(k, NextId(st.progress, k))
  {
  }

  function NextCheckpointOf(env: Env, t: Tables): (Kind, nat) -> nat {
    (k: Kind, n: nat) => NewCheckpoint(env, Above(RowsOf(t, k), n), n)
  }

  lemma {:induction false} TableScanMovesOwnCheckpoint(env: Env, cb: Callback, t: Tables)
    requires Checkpoints(env, cb) && WellFormed(t)
    ensures MovesOwnCheckpoint(TableScanOf(cb, t), NextCheckpointOf(env, t))
  {
    var scan := TableScanOf(cb, t);
    forall st, k | !scan(st, k).Abort?
      ensures NextId(scan(st, k).st.progress, k) == NextCheckpointOf(env, t)(k, NextId(st.progress, k))
      ensures forall j | j != k :: NextId(scan(st, k).st.progress, j) == NextId(st.progress, j)
    {
      var n := NextId(st.progress, k);
      AboveIsWellFormed(t, k, n);
      ScanProgress(env, cb, st, Above(RowsOf(t, k), n), k);
    }
  }

  lemma {:induction false} SyncKeepsProgress(env: Env, now: nat, st: State, order: seq<Hash>)
    ensures var out := Sync(env, now, st, order); !out.Abort? ==> out.st.progress == st.progress
    decreases |order|
  {
    if order != [] {
      if order[0] !in st.mem {
        SyncKeepsProgress(env, now, st, order[1..]);
      } else {
        var out := SyncOne(env, now, st, order[0]);
        if out.Next? {
          SyncKeepsProgress(env, now, out.st, order[1..]);
        }
      }
    }
  }

  /** Whether the results `out` of a run get into the auditor database. */
  predicate Landed(x: Attempt, out: Outcome) {
    !out.Abort? && !x.edbCommit.Failed() && !x.adbCommit.Failed()
  }

  predicate Committed(x: Attempt, a: Stored) {
    Landed(x, Analyze(x.env, x.now, x.tables, x.order, a))
  }

  /** The rows of table `k` that a committed run on `a` has handed to their callback. */
  function HandedRows(x: Attempt, a: Stored, k: Kind): seq<Row> {
    if Committed(x, a) then HandedIfLanded(x, a, k) else []
  }

  function HandedIfLanded(x: Attempt, a: Stored, k: Kind): seq<Row> {
    var rows := Above(RowsOf(x.tables, k), NextId(a.progress, k));
    rows[..Handed(x.env, rows)]
  }

  /** A checkpoint that does not lie beyond the end of its table. */
  predicate Anchored(rows: seq<Row>, n: nat) {
    n == 0 || (rows != [] && n <= rows[|rows| - 1].id + 1)
  }

  /** `rows` are the rows of `table` between checkpoints `n` and `n'`, no more and no fewer. */
  predicate Between(table: seq<Row>, n: nat, n': nat, rows: seq<Row>) {
    && Cut(table, n) <= Cut(table, n')
    && rows == table[Cut(table, n)..Cut(table, n')]
    && (Anchored(table, n) ==> Anchored(table, n'))
  }

  lemma {:induction false} ScanIsExact(env: Env, table: seq<Row>, n: nat)
    requires Ascending(table)
    ensures var rows := Above(table, n);
      Between(table, n, NewCheckpoint(env, rows, n), rows[..Handed(env, rows)])
  {
    var c := Cut(table, n);
    var rows := Above(table, n);
    if rows != [] {
      var count := Handed(env, rows);
      assert rows[count - 1] == table[c + count - 1] && rows[..count] == table[c..c + count];
      CutAfter(table, c + count - 1);
    }
  }

  lemma {:induction false} CutAfter(table: seq<Row>, last: nat)
    requires Ascending(table) && last < |table|
    ensures Cut(table, table[last].id + 1) == last + 1 && Anchored(table, table[last].id + 1)
  {
    CutIs(table, table[last].id + 1, last + 1);
  }

  lemma {:induction false} AnalyzeProgress(x: Attempt, a: Stored, k: Kind)
    requires WellFormed(x.tables)
    ensures var out := Analyze(x.env, x.now, x.tables, x.order, a);
      !out.Abort? ==>
        NextId(out.st.progress, k) == NextCheckpointOf(x.env, x.tables)(k, NextId(a.progress, k))
  {
    var cb, st := CallbackOf(x.env), Begin(a);
    CallbackCheckpoints(x.env);
    TableScanMovesOwnCheckpoint(x.env, cb, x.tables);
    var scan := TableScanOf(cb, x.tables);
    var scanned := InTableOrder(scan, st);
    if !scanned.Abort? {
      InTableOrderProgress(scan, NextCheckpointOf(x.env, x.tables), st, k);
      SyncKeepsProgress(x.env, x.now, scanned.st, x.order);
    }
  }

  lemma {:induction false} ConcludeIsExact(x: Attempt, a: Stored, k: Kind, out: Outcome)
    requires WellFormed(x.tables)
    requires !out.Abort? ==>
      NextId(out.st.progress, k) == NextCheckpointOf(x.env, x.tables)(k, NextId(a.progress, k))
    ensures !Landed(x, out) ==> Conclude(x, a, out) == a
    ensures Between(RowsOf(x.tables, k), NextId(a.progress, k), NextId(Conclude(x, a, out).progress, k),
                    if Landed(x, out) then HandedIfLanded(x, a, k) else [])
  {
    ScanIsExact(x.env, RowsOf(x.tables, k), NextId(a.progress, k));
  }

  /**
   * One run: the rows it hands out are exactly those between the old and the new checkpoint;
   * a run that dies or fails to commit leaves the auditor database as it was.
   */
  lemma {:induction false} RunIsExact(x: Attempt, a: Stored, k: Kind)
    requires WellFormed(x.tables)
    ensures !Committed(x, a) ==> RunOnce(x, a) == a
    ensures Between(RowsOf(x.tables, k), NextId(a.progress, k), NextId(RunOnce(x, a).progress, k), HandedRows(x, a, k))
  {
    AnalyzeProgress(x, a, k);
    ConcludeIsExact(x, a, k, Analyze(x.env, x.now, x.tables, x.order, a));
  }

  /** The same row, seen earlier: all that can change is that a melt gets its reveal. */
  predicate Earlier(r: Row, r': Row) {
    r' == r || (r.Melt? && r'.Melt? && r.newCoins == [] && r' == r.(newCoins := r'.newCoins))
  }

  predicate EarlierRows(s: seq<Row>, t: seq<Row>) {
    |s| == |t| && forall i | 0 <= i < |s| :: Earlier(s[i], t[i])
  }

  /** A table later on: the same rows, perhaps revealed since, and perhaps more at the end. */
  predicate Grows(s: seq<Row>, t: seq<Row>) { |s| <= |t| && EarlierRows(s, t[..|s|]) }

  /** Each run sees the tables of the one before, later on. */
  ghost predicate Growing(xs: seq<Attempt>) {
    && (forall x | x in xs :: WellFormed(x.tables))
    && (forall i | 0 <= i < |xs| - 1 :: Extends(xs[i].tables, xs[i + 1].tables))
  }

  predicate Extends(t: Tables, t': Tables) {
    forall k: Kind :: Grows(RowsOf(t, k), RowsOf(t', k))
  }

  lemma {:induction false} GrowingRest(xs: seq<Attempt>)
    requires xs != [] && Growing(xs)
    ensures Growing(xs[1..])
    ensures |xs| > 1 ==> Extends(xs[0].tables, xs[1].tables)
  {
    forall i | 0 <= i < |xs[1..]| - 1
      ensures Extends(xs[1..][i].tables, xs[1..][i + 1].tables)
    {
      assert Extends(xs[i + 1].tables, xs[i + 1 + 1].tables);
    }
    assert |xs| > 1 ==> Extends(xs[0].tables, xs[0 + 1].tables);
  }

  lemma {:induction false} EarlierTransitive(s: seq<Row>, t: seq<Row>, u: seq<Row>)
    requires EarlierRows(s, t) && EarlierRows(t, u)
    ensures EarlierRows(s, u)
  {
    forall i | 0 <= i < |s| ensures Earlier(s[i], u[i]) {
      assert Earlier(s[i], t[i]) && Earlier(t[i], u[i]);
    }
  }

  lemma {:induction false} GrowsTransitive(s: seq<Row>, t: seq<Row>, u: seq<Row>)
    requires Grows(s, t) && Grows(t, u)
    ensures Grows(s, u)
  {
    assert forall i | 0 <= i < |s| :: t[..|s|][i] == t[i] && u[..|t|][i] == u[i] && u[..|s|][i] == u[i];
    forall i | 0 <= i < |s| ensures Earlier(s[i], u[..|s|][i]) {
      assert Earlier(s[i], t[..|s|][i]) && Earlier(t[i], u[..|t|][i]);
    }
  }

  /** A stretch of a table later on. */
  lemma {:induction false} GrowsStretch(s: seq<Row>, t: seq<Row>, lo: nat, hi: nat)
    requires Grows(s, t) && lo <= hi <= |s|
    ensures EarlierRows(s[lo..hi], t[lo..hi])
  {
    forall i | 0 <= i < hi - lo ensures Earlier(s[lo..hi][i], t[lo..hi][i]) {
      assert Earlier(s[lo + i], t[..|s|][lo + i]);
    }
  }

  lemma {:induction false} EarlierAppend(s: seq<Row>, t: seq<Row>, s': seq<Row>, t': seq<Row>)
    requires EarlierRows(s, t) && EarlierRows(s', t')
    ensures EarlierRows(s + s', t + t')
  {
  }

  /** The rows of table `k` handed out over a whole history of runs. */
  function AllHanded(
    run: Runner, handed: (Attempt, Stored, Kind) -> seq<Row>, xs: seq<Attempt>, a: Stored, k: Kind): seq<Row>
    decreases |xs|
  {
    if xs == [] then [] else
      handed(xs[0], a, k) + AllHanded(run, handed, xs[1..], run(xs[0], a), k)
  }

  ghost predicate HandsOutExactly(run: Runner, handed: (Attempt, Stored, Kind) -> seq<Row>, k: Kind) {
    forall x: Attempt, s: Stored {:trigger handed(x, s, k)} | WellFormed(x.tables) ::
      Between(RowsOf(x.tables, k), NextId(s.progress, k), NextId(run(x, s).progress, k), handed(x, s, k))
  }

  lemma {:induction false} StableWhenGrowing(rows: seq<Row>, more: seq<Row>, n: nat)
    requires Ascending(more) && Ascending(rows) && Grows(rows, more) && Anchored(rows, n)
    ensures Cut(more, n) == Cut(rows, n) && Anchored(more, n)
  {
    forall i | 0 <= i < |rows| ensures rows[i].id == more[i].id {
      assert Earlier(rows[i], more[..|rows|][i]);
    }
    CutSeparates(rows, n);
    CutIs(more, n, Cut(rows, n));
    if rows != [] {
      assert more[|rows| - 1].id <= more[|more| - 1].id;
    }
  }

  /** Two stretches of a growing table that meet make one stretch of the later table. */
  lemma {:induction false} StretchesMeet(t: seq<Row>, t': seq<Row>, lo: nat, mid: nat, hi: nat, rest: seq<Row>)
    requires Grows(t, t') && lo <= mid <= |t| && mid <= hi <= |t'| && EarlierRows(rest, t'[mid..hi])
    ensures EarlierRows(t[lo..mid] + rest, t'[lo..hi])
  {
    GrowsStretch(t, t', lo, mid);
    EarlierAppend(t[lo..mid], t'[lo..mid], rest, t'[mid..hi]);
    assert t'[lo..hi] == t'[lo..mid] + t'[mid..hi];
  }

  /** The rows are a stretch of the last table, from a checkpoint in the first one on; each as it is or was. */
  predicate IsSlice(rows: seq<Row>, first: seq<Row>, last: seq<Row>, n: nat, n': nat) {
    Grows(first, last) && Cut(first, n) <= Cut(last, n') && EarlierRows(rows, last[Cut(first, n)..Cut(last, n')])
  }

  lemma {:induction false} AllHandedIsASlice(
    run: Runner, handed: (Attempt, Stored, Kind) -> seq<Row>, xs: seq<Attempt>, a: Stored, k: Kind)
    requires HandsOutExactly(run, handed, k)
    requires xs != [] && Growing(xs)
    requires Anchored(RowsOf(xs[0].tables, k), NextId(a.progress, k))
    ensures IsSlice(AllHanded(run, handed, xs, a, k), RowsOf(xs[0].tables, k), RowsOf(xs[|xs| - 1].tables, k),
                    NextId(a.progress, k), NextId(RunMany(run, xs, a).progress, k))
    decreases |xs|
  {
    var first, a', mine := RowsOf(xs[0].tables, k), run(xs[0], a), handed(xs[0], a, k);
    var n, n' := NextId(a.progress, k), NextId(a'.progress, k);
    FirstHandsOut(run, handed, xs, a, k);
    if |xs| == 1 {
      assert xs == [xs[0]];
      OnlyOneRun(run, handed, xs[0], a, k);
      BetweenIsSlice(first, n, n', mine);
    } else {
      var second, last := RowsOf(xs[1].tables, k), RowsOf(xs[|xs| - 1].tables, k);
      GrowingRest(xs);
      assert Ascending(second) by { assert xs[1] in xs; }
      StableWhenGrowing(first, second, n');
      AllHandedIsASlice(run, handed, xs[1..], a', k);
      SliceThen(first, second, last, n, n', NextId(RunMany(run, xs, a).progress, k), mine,
                AllHanded(run, handed, xs[1..], a', k));
    }
  }

  lemma {:induction false} FirstHandsOut(
    run: Runner, handed: (Attempt, Stored, Kind) -> seq<Row>, xs: seq<Attempt>, a: Stored, k: Kind)
    requires HandsOutExactly(run, handed, k) && xs != [] && Growing(xs)
    ensures Ascending(RowsOf(xs[0].tables, k))
    ensures Between(RowsOf(xs[0].tables, k), NextId(a.progress, k), NextId(run(xs[0], a).progress, k),
                    handed(xs[0], a, k))
  {
    assert xs[0] in xs;
  }

  lemma {:induction false} OnlyOneRun(
    run: Runner, handed: (Attempt, Stored, Kind) -> seq<Row>, x: Attempt, a: Stored, k: Kind)
    ensures AllHanded(run, handed, [x], a, k) == handed(x, a, k) && RunMany(run, [x], a) == run(x, a)
  {
    assert [x][1..] == [];
  }

  lemma {:induction false} BetweenIsSlice(table: seq<Row>, n: nat, n': nat, rows: seq<Row>)
    requires Between(table, n, n', rows)
    ensures IsSlice(rows, table, table, n, n')
  {
    assert table[..|table|] == table;
  }

  lemma {:induction false} SliceThen(
    first: seq<Row>, second: seq<Row>, last: seq<Row>, n: nat, n': nat, end: nat, mine: seq<Row>, rest: seq<Row>)
    requires Grows(first, second) && Between(first, n, n', mine)
    requires Cut(second, n') == Cut(first, n') && IsSlice(rest, second, last, n', end)
    ensures IsSlice(mine + rest, first, last, n, end)
  {
    GrowsTransitive(first, second, last);
    StretchesMeet(first, last, Cut(first, n), Cut(first, n'), Cut(last, end), rest);
  }

  /**
   * `handed` is the table below the checkpoint, row for row and in order; each row as it is, or as
   * it was before its reveal.
   */
  predicate HandedOnce(handed: seq<Row>, table: seq<Row>, checkpoint: nat) {
    && EarlierRows(handed, table[..Cut(table, checkpoint)])
    && (forall i | 0 <= i < |table| :: table[i].id < checkpoint <==> i < |handed|)
    && forall i | 0 <= i < |handed| :: handed[i].id == table[i].id
  }

  lemma {:induction false} EveryRowOnceBy(
    run: Runner, handed: (Attempt, Stored, Kind) -> seq<Row>, xs: seq<Attempt>, a: Stored, k: Kind)
    requires HandsOutExactly(run, handed, k)
    requires xs != [] && Growing(xs) && NextId(a.progress, k) == 0
    ensures HandedOnce(AllHanded(run, handed, xs, a, k), RowsOf(xs[|xs| - 1].tables, k),
                       NextId(RunMany(run, xs, a).progress, k))
  {
    AllHandedIsASlice(run, handed, xs, a, k);
    assert xs[|xs| - 1] in xs;
    SliceFromStart(AllHanded(run, handed, xs, a, k), RowsOf(xs[0].tables, k), RowsOf(xs[|xs| - 1].tables, k),
                   NextId(RunMany(run, xs, a).progress, k));
  }

  lemma {:induction false} SliceFromStart(rows: seq<Row>, first: seq<Row>, last: seq<Row>, checkpoint: nat)
    requires IsSlice(rows, first, last, 0, checkpoint) && Ascending(last)
    ensures HandedOnce(rows, last, checkpoint)
  {
    CutSeparates(last, checkpoint);
    assert last[0..Cut(last, checkpoint)] == last[..Cut(last, checkpoint)];
    forall i | 0 <= i < |rows| ensures rows[i].id == last[i].id {
      assert Earlier(rows[i], last[..Cut(last, checkpoint)][i]);
    }
  }

  lemma {:induction false} RunsHandOutExactly(k: Kind)
    ensures HandsOutExactly(RunOnce, HandedRows, k)
  {
    forall x: Attempt, s: Stored | WellFormed(x.tables)
      ensures Between(RowsOf(x.tables, k), NextId(s.progress, k), NextId(RunOnce(x, s).progress, k),
                      HandedRows(x, s, k))
    {
      RunIsExact(x, s, k);
    }
  }

  /**
   * Incremental exactly-once: over any number of runs, failed ones included, the rows handed to a
   * callback are, in order and without gap or repetition, the rows of its table below the stored
   * checkpoint -- whether or not melts are revealed after they were handed out.
   */
  lemma {:induction false} EveryRowOnce(xs: seq<Attempt>, a: Stored, k: Kind)
    requires xs != [] && Growing(xs) && NextId(a.progress, k) == 0
    ensures HandedOnce(AllHanded(RunOnce, HandedRows, xs, a, k), RowsOf(xs[|xs| - 1].tables, k),
                       NextId(RunMany(RunOnce, xs, a).progress, k))
  {
    RunsHandOutExactly(k);
    EveryRowOnceBy(RunOnce, HandedRows, xs, a, k);
  }

  /**
   * A melt handed out before its reveal is never handed out again: over all runs it occurs once,
   * and without its new coins, although the table shows them by now.
   */
  lemma {:induction false} LateRevealIsNeverSeen(xs: seq<Attempt>, a: Stored, i: nat)
    requires xs != [] && Growing(xs) && NextId(a.progress, KMelt) == 0
    requires i < |AllHanded(RunOnce, HandedRows, xs, a, KMelt)|
    ensures i < |RowsOf(xs[|xs| - 1].tables, KMelt)|
    ensures var handed, now := AllHanded(RunOnce, HandedRows, xs, a, KMelt), RowsOf(xs[|xs| - 1].tables, KMelt)[i];
      && (forall j | 0 <= j < |handed| && handed[j].id == now.id :: j == i)
      && handed[i].id == now.id && Earlier(handed[i], now)
  {
    var handed, table := AllHanded(RunOnce, HandedRows, xs, a, KMelt), RowsOf(xs[|xs| - 1].tables, KMelt);
    EveryRowOnce(xs, a, KMelt);
    assert xs[|xs| - 1] in xs && Ascending(table);
    assert Earlier(handed[i], table[..Cut(table, NextId(RunMany(RunOnce, xs, a).progress, KMelt))][i]);
  }
}
