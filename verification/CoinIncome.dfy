/** What the coin auditor's income and findings add up to, over the rows of a run and over any number of runs. */
module CoinIncome {
  import opened Sums
  import opened CoinLedger
  import opened CoinRows
  import opened CoinRuns

  // ----- what a row is worth -----

  /** The fee an accepted deposit earns. */
  function DepositFee(env: Env): Row -> int {
    (row: Row) =>
      if row.Deposit? && row.h in env.issues && row.wireOk && row.sigOk then env.issues[row.h].feeDeposit else 0
  }

  /** The fee a revealed melt earns. */
  function MeltFee(env: Env): Row -> int {
    (row: Row) => if Settles(env, row) then env.issues[row.h].feeRefresh else 0
  }

  /** The fee a signed refund earns. */
  function RefundFee(env: Env): Row -> int {
    (row: Row) => if row.Refund? && row.h in env.issues && row.sigOk then env.issues[row.h].feeRefund else 0
  }

  function Count(bad: bool): nat { if bad then 1 else 0 }

  /** How many of the checks made on a row fail; each failure counts the row's amount as lost. */
  function Faults(env: Env, row: Row): nat {
    var known := row.h in env.issues;
    match row
    case Withdraw(_, _) => 0
    case Refund(_, _, _, sigOk) => Count(known && !sigOk)
    case RecoupRefresh(_, _, h, _, coinOk, sigOk) =>
      Count(!coinOk) + Count(known && !coinOk) + Count(known && !(sigOk && h in env.revoked))
    case Recoup(_, h, _, coinOk, sigOk) =>
      Count(!coinOk) + Count(known && !coinOk) + Count(known && !(sigOk && h in env.revoked))
    case Melt(_, _, _, coinOk, sigOk, _) => Count(known && !coinOk) + Count(known && !sigOk)
    case Deposit(_, _, _, coinOk, wireOk, sigOk) => Count(known && !coinOk) + Count(known && !(wireOk && sigOk))
  }

  function Times(n: nat, amount: nat): nat { if n == 0 then 0 else Times(n - 1, amount) + amount }

  function BadSigLoss(env: Env): Row -> int {
    (row: Row) => if row.Withdraw? then 0 else Times(Faults(env, row), row.amount)
  }

  /** A melt of a known coin without reveal. */
  function Hanging(env: Env): Row -> int {
    (row: Row) => if row.Melt? && row.h in env.issues && row.newCoins == [] then row.amount else 0
  }

  /** By how much a revealed melt fails to cover its fee. */
  function FeeShortfall(env: Env): Row -> int {
    (row: Row) =>
      if Settles(env, row) then Max0(env.issues[row.h].feeRefresh - row.amount) else 0
  }

  /** By how much a revealed melt fails to cover its fee and what its new coins cost. */
  function Shortfall(env: Env): Row -> int {
    (row: Row) =>
      if Settles(env, row)
      then Max0(env.issues[row.h].feeRefresh + Sum(row.newCoins, PriceOf(env)) - row.amount)
      else 0
  }

  /** What a new coin costs: its value and the fee for withdrawing it. */
  function PriceOf(env: Env): Hash -> int {
    (f: Hash) => if f in env.issues then env.issues[f].value + env.issues[f].feeWithdraw else 0
  }

  lemma {:induction false} RefreshCostIs(env: Env, newCoins: seq<Hash>)
    requires forall f | f in newCoins :: f in env.issues
    ensures RefreshCost(env, newCoins) == Sum(newCoins, PriceOf(env))
  {
    if newCoins != [] {
      var n := |newCoins| - 1;
      assert newCoins == newCoins[..n] + [newCoins[n]];
      RefreshCostIs(env, newCoins[..n]);
      SumSnoc(newCoins[..n], newCoins[n], PriceOf(env));
    }
  }

  // ----- income as sums over the rows handed out -----

  type Getter = State -> int

  ghost predicate Adds(cb: Callback, get: Getter, gain: Row -> int) {
    forall st, row {:trigger cb(st, row)} | !cb(st, row).Abort? :: get(cb(st, row).st) == get(st) + gain(row)
  }

  lemma {:induction false} ScanAdds(env: Env, cb: Callback, get: Getter, gain: Row -> int, st: State, rows: seq<Row>)
    requires Checkpoints(env, cb) && Adds(cb, get, gain)
    ensures var out := Scan(cb, st, rows);
      !out.Abort? ==> get(out.st) == get(st) + Sum(rows[..Handed(env, rows)], gain)
    decreases |rows|
  {
    if rows != [] {
      var n := Handed(env, rows);
      var out := cb(st, rows[0]);
      assert rows[..n][1..] == rows[1..][..n - 1];
      if out.Next? {
        ScanAdds(env, cb, get, gain, out.st, rows[1..]);
      }
    }
  }

  function HandedFrom(env: Env, t: Tables, k: Kind, n: nat): seq<Row> {
    var rows := Above(RowsOf(t, k), n);
    rows[..Handed(env, rows)]
  }

  function TableTotal(env: Env, t: Tables, gain: Row -> int): (Kind, nat) -> int {
    (k: Kind, n: nat) => Sum(HandedFrom(env, t, k, n), gain)
  }

  function AllTables(total: (Kind, nat) -> int, p: Progress): int {
    total(KWithdraw, p.withdraw) + total(KRefund, p.refund) + total(KRecoupRefresh, p.recoupRefresh)
    + total(KRecoup, p.recoup) + total(KMelt, p.melt) + total(KDeposit, p.deposit)
  }

  ghost predicate ScanAddsUp(scan: TableScan, get: Getter, total: (Kind, nat) -> int) {
    forall st, k {:trigger scan(st, k)} | !scan(st, k).Abort? ::
      get(scan(st, k).st) == get(st) + total(k, NextId(st.progress, k))
  }

  lemma {:induction false} InTableOrderAdds(
    scan: TableScan, next: (Kind, nat) -> nat, get: Getter, total: (Kind, nat) -> int, st: State)
    requires MovesOwnCheckpoint(scan, next) && ScanAddsUp(scan, get, total)
    ensures var out := InTableOrder(scan, st); !out.Abort? ==> get(out.st) == get(st) + AllTables(total, st.progress)
  {
  }

  /** What every row adds, the scan of all tables adds for every row it hands out. */
  lemma {:induction false} ScanTablesAdds(env: Env, t: Tables, get: Getter, gain: Row -> int, st: State)
    requires WellFormed(t) && Adds(CallbackOf(env), get, gain)
    ensures var out := ScanTables(CallbackOf(env), t, st);
      !out.Abort? ==> get(out.st) == get(st) + AllTables(TableTotal(env, t, gain), st.progress)
  {
    var cb := CallbackOf(env);
    var scan, total := TableScanOf(cb, t), TableTotal(env, t, gain);
    CallbackCheckpoints(env);
    TableScanMovesOwnCheckpoint(env, cb, t);
    forall st, k | !scan(st, k).Abort?
      ensures get(scan(st, k).st) == get(st) + total(k, NextId(st.progress, k))
    {
      ScanAdds(env, cb, get, gain, st, Above(RowsOf(t, k), NextId(st.progress, k)));
    }
    InTableOrderAdds(scan, NextCheckpointOf(env, t), get, total, st);
  }

  lemma {:induction false} StepIncome(env: Env, st: State, row: Row)
    requires !Step(env, st, row).Abort?
    ensures Step(env, st, row).st.income == Book(env, st.income, row)
  {
    ApplyAllFrame(Pass(env, st, row), Moves(env, row));
  }

  /** The bookkeeping of a row against what it is worth: fees, */
  lemma {:induction false} FeesAreBooked(env: Env, r: Income, row: Row)
    ensures var r' := Book(env, r, row);
      && r'.depositFees == r.depositFees + DepositFee(env)(row)
      && r'.meltFees == r.meltFees + MeltFee(env)(row)
      && r'.refundFees == r.refundFees + RefundFee(env)(row)
      && r'.refreshHanging == r.refreshHanging + Hanging(env)(row)
  {
  }

  /** failed checks, */
  lemma {:induction false} FaultsAreBooked(env: Env, r: Income, row: Row)
    ensures Book(env, r, row).badSigLoss == r.badSigLoss + BadSigLoss(env)(row)
  {
    if !row.Withdraw? {
      assert Times(1, row.amount) == row.amount;
      assert Times(2, row.amount) == Times(1, row.amount) + row.amount;
      assert Times(3, row.amount) == Times(2, row.amount) + row.amount;
    }
  }

  /** and what a melt falls short of. */
  lemma {:induction false} ShortfallsAreBooked(env: Env, r: Income, row: Row)
    ensures var r' := Book(env, r, row);
      && r'.deltaPlus == r.deltaPlus + FeeShortfall(env)(row)
      && r'.deltaPlus + r'.deltaMinus == r.deltaPlus + r.deltaMinus + Shortfall(env)(row)
  {
    if Settles(env, row) {
      RefreshCostIs(env, row.newCoins);
    }
  }

  function IncomeOf(get: Income -> int): Getter { (st: State) => get(st.income) }

  function DepositFees(r: Income): int { r.depositFees }
  function MeltFees(r: Income): int { r.meltFees }
  function RefundFees(r: Income): int { r.refundFees }
  function BadSigLosses(r: Income): int { r.badSigLoss }
  function RefreshHanging(r: Income): int { r.refreshHanging }
  function DeltaPlus(r: Income): int { r.deltaPlus }
  function Deltas(r: Income): int { r.deltaPlus + r.deltaMinus }

  /** The getter grows by the gain of every row booked. */
  ghost predicate Books(env: Env, get: Income -> int, gain: Row -> int) {
    forall r, row {:trigger Book(env, r, row)} :: get(Book(env, r, row)) == get(r) + gain(row)
  }

  lemma {:induction false} BookedFees(env: Env)
    ensures Books(env, DepositFees, DepositFee(env)) && Books(env, MeltFees, MeltFee(env))
    ensures Books(env, RefundFees, RefundFee(env))
  {
    forall r, row
      ensures DepositFees(Book(env, r, row)) == DepositFees(r) + DepositFee(env)(row)
      ensures MeltFees(Book(env, r, row)) == MeltFees(r) + MeltFee(env)(row)
      ensures RefundFees(Book(env, r, row)) == RefundFees(r) + RefundFee(env)(row)
    {
      FeesAreBooked(env, r, row);
    }
  }

  lemma {:induction false} BookedFindings(env: Env)
    ensures Books(env, BadSigLosses, BadSigLoss(env)) && Books(env, RefreshHanging, Hanging(env))
    ensures Books(env, DeltaPlus, FeeShortfall(env)) && Books(env, Deltas, Shortfall(env))
  {
    forall r, row
      ensures BadSigLosses(Book(env, r, row)) == BadSigLosses(r) + BadSigLoss(env)(row)
      ensures RefreshHanging(Book(env, r, row)) == RefreshHanging(r) + Hanging(env)(row)
      ensures DeltaPlus(Book(env, r, row)) == DeltaPlus(r) + FeeShortfall(env)(row)
      ensures Deltas(Book(env, r, row)) == Deltas(r) + Shortfall(env)(row)
    {
      FeesAreBooked(env, r, row);
      FaultsAreBooked(env, r, row);
      ShortfallsAreBooked(env, r, row);
    }
  }

  lemma {:induction false} SyncKeepsIncome(env: Env, now: nat, st: State, order: seq<Hash>)
    ensures var out := Sync(env, now, st, order); !out.Abort? ==> out.st.income == st.income
    decreases |order|
  {
    if order != [] {
      if order[0] !in st.mem {
        SyncKeepsIncome(env, now, st, order[1..]);
      } else {
        var out := SyncOne(env, now, st, order[0]);
        if out.Next? {
          SyncKeepsIncome(env, now, out.st, order[1..]);
        }
      }
    }
  }

  /** An income has grown from where the run began by the gain of every row handed out. */
  predicate Grown(x: Attempt, a: Stored, out: Outcome, get: Income -> int, gain: Row -> int) {
    !out.Abort? ==>
      get(out.st.income) == get(BeginIncome(a.fees)) + AllTables(TableTotal(x.env, x.tables, gain), a.progress)
  }

  lemma {:induction false} RunBooks(x: Attempt, a: Stored, get: Income -> int, gain: Row -> int)
    requires WellFormed(x.tables) && Books(x.env, get, gain)
    ensures Grown(x, a, Analyze(x.env, x.now, x.tables, x.order, a), get, gain)
  {
    var cb := CallbackOf(x.env);
    forall st, row | !cb(st, row).Abort? ensures IncomeOf(get)(cb(st, row).st) == IncomeOf(get)(st) + gain(row) {
      StepIncome(x.env, st, row);
    }
    ScanTablesAdds(x.env, x.tables, IncomeOf(get), gain, Begin(a));
    var scanned := ScanTables(cb, x.tables, Begin(a));
    if !scanned.Abort? {
      SyncKeepsIncome(x.env, x.now, scanned.st, x.order);
    }
  }

  /**
   * The findings of a run: signature losses are the amounts of all rows handed out, once for every
   * failed check; hanging melts are those without reveal; and the arithmetic differences come to
   * what melts fall short of their fees and new coins.
   */
  lemma {:induction false} FindingsOfRun(x: Attempt, a: Stored)
    requires WellFormed(x.tables)
    ensures var out := Analyze(x.env, x.now, x.tables, x.order, a);
      && Grown(x, a, out, BadSigLosses, BadSigLoss(x.env)) && Grown(x, a, out, RefreshHanging, Hanging(x.env))
      && Grown(x, a, out, DeltaPlus, FeeShortfall(x.env)) && Grown(x, a, out, Deltas, Shortfall(x.env))
    ensures var r := BeginIncome(a.fees);
      r.badSigLoss == 0 && r.refreshHanging == 0 && r.deltaPlus == 0 && r.deltaMinus == 0
  {
    BookedFindings(x.env);
    RunBooks(x, a, BadSigLosses, BadSigLoss(x.env));
    RunBooks(x, a, RefreshHanging, Hanging(x.env));
    RunBooks(x, a, DeltaPlus, FeeShortfall(x.env));
    RunBooks(x, a, Deltas, Shortfall(x.env));
  }

  // ----- fee incomes, over any number of runs -----

  lemma {:induction false} NothingFrom(rows: seq<Row>, gain: Row -> int)
    requires forall row | row in rows :: gain(row) == 0
    ensures Sum(rows, gain) == 0
  {
    if rows != [] {
      assert forall row | row in rows[1..] :: row in rows;
      NothingFrom(rows[1..], gain);
    }
  }

  /** If only one kind of row has a gain, its table alone makes the total. */
  lemma {:induction false} OneTable(env: Env, t: Tables, gain: Row -> int, p: Progress, k: Kind)
    requires WellFormed(t) && forall row | KindOf(row) != k :: gain(row) == 0
    ensures AllTables(TableTotal(env, t, gain), p) == Sum(HandedFrom(env, t, k, NextId(p, k)), gain)
  {
    var total := TableTotal(env, t, gain);
    forall j | j != k ensures total(j, NextId(p, j)) == 0 {
      OtherTable(env, t, gain, j, NextId(p, j));
    }
    OnlyOne(total, p, k);
  }

  lemma {:induction false} OtherTable(env: Env, t: Tables, gain: Row -> int, j: Kind, n: nat)
    requires WellFormed(t) && forall row | KindOf(row) == j :: gain(row) == 0
    ensures Sum(HandedFrom(env, t, j, n), gain) == 0
  {
    AboveIsWellFormed(t, j, n);
    assert forall row | row in HandedFrom(env, t, j, n) :: row in Above(RowsOf(t, j), n);
    NothingFrom(HandedFrom(env, t, j, n), gain);
  }

  lemma {:induction false} OnlyOne(total: (Kind, nat) -> int, p: Progress, k: Kind)
    requires forall j | j != k :: total(j, NextId(p, j)) == 0
    ensures AllTables(total, p) == total(k, NextId(p, k))
  {
    assert NextId(p, KWithdraw) == p.withdraw && NextId(p, KRefund) == p.refund;
    assert NextId(p, KRecoupRefresh) == p.recoupRefresh && NextId(p, KRecoup) == p.recoup;
    assert NextId(p, KMelt) == p.melt && NextId(p, KDeposit) == p.deposit;
  }

  /** A fee income as stored. */
  type FeeOf = Fees -> int

  function DepositIncome(f: Fees): int { f.deposit }
  function MeltIncome(f: Fees): int { f.melt }
  function RefundIncome(f: Fees): int { f.refund }

  lemma {:induction false} ConcludeFees(
    x: Attempt, a: Stored, out: Outcome, get: Income -> int, fee: FeeOf, gain: Row -> int, k: Kind)
    requires WellFormed(x.tables) && Grown(x, a, out, get, gain)
    requires forall row | KindOf(row) != k :: gain(row) == 0
    requires forall st: State :: fee(Store(st).fees) == get(st.income)
    requires fee(a.fees) == get(BeginIncome(a.fees))
    ensures fee(Conclude(x, a, out).fees)
      == fee(a.fees) + Sum(if Landed(x, out) then HandedIfLanded(x, a, k) else [], gain)
  {
    OneTable(x.env, x.tables, gain, a.progress, k);
  }

  /** One run adds to each fee income the fees of the rows it has handed out, if it commits. */
  lemma {:induction false} FeesOfRun(x: Attempt, a: Stored)
    requires WellFormed(x.tables)
    ensures var b := RunOnce(x, a);
      && b.fees.deposit == a.fees.deposit + Sum(HandedRows(x, a, KDeposit), DepositFee(x.env))
      && b.fees.melt == a.fees.melt + Sum(HandedRows(x, a, KMelt), MeltFee(x.env))
      && b.fees.refund == a.fees.refund + Sum(HandedRows(x, a, KRefund), RefundFee(x.env))
  {
    var out := Analyze(x.env, x.now, x.tables, x.order, a);
    BookedFees(x.env);
    RunBooks(x, a, DepositFees, DepositFee(x.env));
    RunBooks(x, a, MeltFees, MeltFee(x.env));
    RunBooks(x, a, RefundFees, RefundFee(x.env));
    ConcludeFees(x, a, out, DepositFees, DepositIncome, DepositFee(x.env), KDeposit);
    ConcludeFees(x, a, out, MeltFees, MeltIncome, MeltFee(x.env), KMelt);
    ConcludeFees(x, a, out, RefundFees, RefundIncome, RefundFee(x.env), KRefund);
  }

  /** What the rows handed out over a history of runs are worth, each by what its run knew. */
  function WorthOfHanded(
    run: Runner, handed: (Attempt, Stored, Kind) -> seq<Row>,
    gain: Env -> Row -> int, xs: seq<Attempt>, a: Stored, k: Kind): int
    decreases |xs|
  {
    if xs == [] then 0 else
      Sum(handed(xs[0], a, k), gain(xs[0].env)) + WorthOfHanded(run, handed, gain, xs[1..], run(xs[0], a), k)
  }

  ghost predicate EarnsExactly(
    run: Runner, handed: (Attempt, Stored, Kind) -> seq<Row>, fee: FeeOf, gain: Env -> Row -> int, k: Kind)
  {
    forall x: Attempt, s: Stored {:trigger run(x, s)} | WellFormed(x.tables) ::
      fee(run(x, s).fees) == fee(s.fees) + Sum(handed(x, s, k), gain(x.env))
  }

  lemma {:induction false} EarnedOverRuns(
    run: Runner, handed: (Attempt, Stored, Kind) -> seq<Row>, fee: FeeOf, gain: Env -> Row -> int,
    xs: seq<Attempt>, a: Stored, k: Kind)
    requires EarnsExactly(run, handed, fee, gain, k) && forall x | x in xs :: WellFormed(x.tables)
    ensures fee(RunMany(run, xs, a).fees) == fee(a.fees) + WorthOfHanded(run, handed, gain, xs, a, k)
    decreases |xs|
  {
    if xs != [] {
      assert xs[0] in xs && forall x | x in xs[1..] :: x in xs;
      EarnedOverRuns(run, handed, fee, gain, xs[1..], run(xs[0], a), k);
    }
  }

  /** What the rows handed out are worth by `env` beyond what they were worth to the runs that got them. */
  function LearntOver(
    run: Runner, handed: (Attempt, Stored, Kind) -> seq<Row>,
    gain: Env -> Row -> int, xs: seq<Attempt>, a: Stored, k: Kind, env: Env): int
    decreases |xs|
  {
    if xs == [] then 0 else
      Sum(handed(xs[0], a, k), Learning(gain, xs[0].env, env))
      + LearntOver(run, handed, gain, xs[1..], run(xs[0], a), k, env)
  }

  function Learning(gain: Env -> Row -> int, was: Env, env: Env): Row -> int {
    (row: Row) => gain(env)(row) - gain(was)(row)
  }

  /** Every row was worth to the run that got it what it is worth by `env`. */
  ghost predicate AsKnown(
    run: Runner, handed: (Attempt, Stored, Kind) -> seq<Row>,
    gain: Env -> Row -> int, xs: seq<Attempt>, a: Stored, k: Kind, env: Env)
    decreases |xs|
  {
    xs != [] ==>
      && (forall row | row in handed(xs[0], a, k) :: gain(xs[0].env)(row) == gain(env)(row))
      && AsKnown(run, handed, gain, xs[1..], run(xs[0], a), k, env)
  }

  lemma {:induction false} WorthThenLearnt(
    run: Runner, handed: (Attempt, Stored, Kind) -> seq<Row>, gain: Env -> Row -> int,
    xs: seq<Attempt>, a: Stored, k: Kind, env: Env)
    ensures WorthOfHanded(run, handed, gain, xs, a, k) + LearntOver(run, handed, gain, xs, a, k, env)
      == Sum(AllHanded(run, handed, xs, a, k), gain(env))
    decreases |xs|
  {
    if xs != [] {
      var mine := handed(xs[0], a, k);
      WorthThenLearnt(run, handed, gain, xs[1..], run(xs[0], a), k, env);
      SumAdd(mine, gain(xs[0].env), Learning(gain, xs[0].env, env), gain(env));
      SumAppend(mine, AllHanded(run, handed, xs[1..], run(xs[0], a), k), gain(env));
    }
  }

  lemma {:induction false} NothingLearnt(
    run: Runner, handed: (Attempt, Stored, Kind) -> seq<Row>, gain: Env -> Row -> int,
    xs: seq<Attempt>, a: Stored, k: Kind, env: Env)
    requires AsKnown(run, handed, gain, xs, a, k, env)
    ensures LearntOver(run, handed, gain, xs, a, k, env) == 0
    decreases |xs|
  {
    if xs != [] {
      SumOfZeros(handed(xs[0], a, k), Learning(gain, xs[0].env, env));
      NothingLearnt(run, handed, gain, xs[1..], run(xs[0], a), k, env);
    }
  }

  /** If `env` gives no row less, something was learnt exactly if not every row was as known. */
  lemma {:induction false} LearntExactly(
    run: Runner, handed: (Attempt, Stored, Kind) -> seq<Row>, gain: Env -> Row -> int,
    xs: seq<Attempt>, a: Stored, k: Kind, env: Env)
    requires forall x, row | x in xs :: gain(x.env)(row) <= gain(env)(row)
    ensures LearntOver(run, handed, gain, xs, a, k, env) >= 0
    ensures LearntOver(run, handed, gain, xs, a, k, env) == 0 <==> AsKnown(run, handed, gain, xs, a, k, env)
    decreases |xs|
  {
    if xs != [] {
      assert xs[0] in xs && forall x | x in xs[1..] :: x in xs;
      SumOfZeros(handed(xs[0], a, k), Learning(gain, xs[0].env, env));
      LearntExactly(run, handed, gain, xs[1..], run(xs[0], a), k, env);
    }
  }

  lemma {:induction false} AsKnownAlways(
    run: Runner, handed: (Attempt, Stored, Kind) -> seq<Row>, gain: Env -> Row -> int,
    xs: seq<Attempt>, a: Stored, k: Kind, env: Env)
    requires forall x, row | x in xs :: gain(x.env)(row) == gain(env)(row)
    ensures AsKnown(run, handed, gain, xs, a, k, env)
    decreases |xs|
  {
    if xs != [] {
      assert xs[0] in xs && forall x | x in xs[1..] :: x in xs;
      AsKnownAlways(run, handed, gain, xs[1..], run(xs[0], a), k, env);
    }
  }

  lemma {:induction false} SumOfZeros(rows: seq<Row>, f: Row -> int)
    requires forall row | row in rows :: f(row) >= 0
    ensures Sum(rows, f) >= 0
    ensures Sum(rows, f) == 0 <==> forall row | row in rows :: f(row) == 0
  {
    if rows != [] {
      assert forall row | row in rows[1..] :: row in rows;
      assert forall row | row in rows :: row == rows[0] || row in rows[1..];
      SumOfZeros(rows[1..], f);
    }
  }

  function DepositFeeIn(): Env -> Row -> int { (env: Env) => DepositFee(env) }
  function MeltFeeIn(): Env -> Row -> int { (env: Env) => MeltFee(env) }
  function RefundFeeIn(): Env -> Row -> int { (env: Env) => RefundFee(env) }

  lemma {:induction false} RunsEarnExactly()
    ensures EarnsExactly(RunOnce, HandedRows, DepositIncome, DepositFeeIn(), KDeposit)
    ensures EarnsExactly(RunOnce, HandedRows, MeltIncome, MeltFeeIn(), KMelt)
    ensures EarnsExactly(RunOnce, HandedRows, RefundIncome, RefundFeeIn(), KRefund)
  {
    forall x: Attempt, s: Stored | WellFormed(x.tables)
      ensures DepositIncome(RunOnce(x, s).fees) ==
        DepositIncome(s.fees) + Sum(HandedRows(x, s, KDeposit), DepositFeeIn()(x.env))
      ensures MeltIncome(RunOnce(x, s).fees) == MeltIncome(s.fees) + Sum(HandedRows(x, s, KMelt), MeltFeeIn()(x.env))
      ensures RefundIncome(RunOnce(x, s).fees) ==
        RefundIncome(s.fees) + Sum(HandedRows(x, s, KRefund), RefundFeeIn()(x.env))
    {
      FeesOfRun(x, s);
    }
  }

  /** Over any runs, failed ones included, each fee income grows by the fees
      of the rows handed out, as known at the time. */
  lemma {:induction false} FeesOfRuns(xs: seq<Attempt>, a: Stored)
    requires forall x | x in xs :: WellFormed(x.tables)
    ensures var b := RunMany(RunOnce, xs, a);
      && b.fees.deposit == a.fees.deposit + WorthOfHanded(RunOnce, HandedRows, DepositFeeIn(), xs, a, KDeposit)
      && b.fees.melt == a.fees.melt + WorthOfHanded(RunOnce, HandedRows, MeltFeeIn(), xs, a, KMelt)
      && b.fees.refund == a.fees.refund + WorthOfHanded(RunOnce, HandedRows, RefundFeeIn(), xs, a, KRefund)
  {
    RunsEarnExactly();
    EarnedOverRuns(RunOnce, HandedRows, DepositIncome, DepositFeeIn(), xs, a, KDeposit);
    EarnedOverRuns(RunOnce, HandedRows, MeltIncome, MeltFeeIn(), xs, a, KMelt);
    EarnedOverRuns(RunOnce, HandedRows, RefundIncome, RefundFeeIn(), xs, a, KRefund);
  }

  // ----- rows that were revealed after they were handed out -----

  /** The rows of a table below a checkpoint, as the last run saw them, and what they are worth. */
  function Below(x: Attempt, k: Kind, checkpoint: nat): seq<Row> {
    RowsOf(x.tables, k)[..Cut(RowsOf(x.tables, k), checkpoint)]
  }

  function Worth(x: Attempt, k: Kind, checkpoint: nat, gain: Row -> int): int {
    Sum(Below(x, k, checkpoint), gain)
  }

  /** What rows are worth now beyond what they were worth when handed out. */
  function LateWorth(handed: seq<Row>, now: seq<Row>, gain: Row -> int): int
    requires |handed| == |now|
  {
    if handed == [] then 0 else
      gain(now[0]) - gain(handed[0]) + LateWorth(handed[1..], now[1..], gain)
  }

  lemma {:induction false} WorthThenAndNow(handed: seq<Row>, now: seq<Row>, gain: Row -> int)
    requires |handed| == |now|
    ensures Sum(now, gain) == Sum(handed, gain) + LateWorth(handed, now, gain)
  {
    if handed != [] {
      WorthThenAndNow(handed[1..], now[1..], gain);
    }
  }

  /** If no row lost worth, the late worth is not negative, and zero exactly if no row gained any. */
  lemma {:induction false} LateWorthExactly(handed: seq<Row>, now: seq<Row>, gain: Row -> int)
    requires |handed| == |now| && forall i | 0 <= i < |now| :: gain(handed[i]) <= gain(now[i])
    ensures LateWorth(handed, now, gain) >= 0
    ensures LateWorth(handed, now, gain) == 0 <==> forall i | 0 <= i < |now| :: gain(handed[i]) == gain(now[i])
  {
    if handed != [] {
      assert forall i | 0 <= i < |now| - 1 :: handed[1..][i] == handed[i + 1] && now[1..][i] == now[i + 1];
      assert forall i | 0 < i < |now| :: handed[i] == handed[1..][i - 1] && now[i] == now[1..][i - 1];
      LateWorthExactly(handed[1..], now[1..], gain);
    }
  }

  lemma {:induction false} NothingLate(handed: seq<Row>, now: seq<Row>, gain: Row -> int)
    requires handed == now
    ensures LateWorth(handed, now, gain) == 0
  {
    if handed != [] {
      NothingLate(handed[1..], now[1..], gain);
    }
  }

  /** Only melts are ever revealed. */
  lemma {:induction false} OnlyMeltsAreLate(handed: seq<Row>, now: seq<Row>)
    requires EarlierRows(handed, now) && forall row | row in now :: !row.Melt?
    ensures handed == now
  {
    forall i | 0 <= i < |now| ensures handed[i] == now[i] {
      assert Earlier(handed[i], now[i]) && now[i] in now;
    }
  }

  /** The rows handed out over a history that starts with the first run. */
  function HandedOver(xs: seq<Attempt>, k: Kind): seq<Row> { AllHanded(RunOnce, HandedRows, xs, FIRST_TIME, k) }

  function Reached(xs: seq<Attempt>): Stored { RunMany(RunOnce, xs, FIRST_TIME) }

  /** The same rows as the tables of the last run show them. */
  function ShownNow(xs: seq<Attempt>, k: Kind): seq<Row>
    requires xs != []
  {
    Below(xs[|xs| - 1], k, NextId(Reached(xs).progress, k))
  }

  lemma {:induction false} ShownRows(xs: seq<Attempt>, k: Kind)
    requires xs != [] && Growing(xs)
    ensures EarlierRows(HandedOver(xs, k), ShownNow(xs, k))
    ensures forall row | row in ShownNow(xs, k) :: KindOf(row) == k
    ensures k != KMelt ==> HandedOver(xs, k) == ShownNow(xs, k)
  {
    EveryRowOnce(xs, FIRST_TIME, k);
    assert xs[|xs| - 1] in xs;
    RowsBelow(HandedOver(xs, k), xs[|xs| - 1], k, NextId(Reached(xs).progress, k));
  }

  lemma {:induction false} RowsBelow(handed: seq<Row>, x: Attempt, k: Kind, checkpoint: nat)
    requires WellFormed(x.tables) && HandedOnce(handed, RowsOf(x.tables, k), checkpoint)
    ensures EarlierRows(handed, Below(x, k, checkpoint))
    ensures forall row | row in Below(x, k, checkpoint) :: KindOf(row) == k
    ensures k != KMelt ==> handed == Below(x, k, checkpoint)
  {
    BelowIsOfKind(x, k, checkpoint);
    if k != KMelt {
      OnlyMeltsAreLate(handed, Below(x, k, checkpoint));
    }
  }

  lemma {:induction false} BelowIsOfKind(x: Attempt, k: Kind, checkpoint: nat)
    requires WellFormed(x.tables)
    ensures forall row | row in Below(x, k, checkpoint) :: KindOf(row) == k
  {
    forall row | row in Below(x, k, checkpoint) ensures KindOf(row) == k {
      assert row in RowsOf(x.tables, k);
    }
  }

  /** What the rows handed out from the first run on are worth by `env` beyond what their runs knew. */
  function LearntLate(xs: seq<Attempt>, env: Env, gain: Env -> Row -> int, k: Kind): int {
    LearntOver(RunOnce, HandedRows, gain, xs, FIRST_TIME, k, env)
  }

  /** From the first run on, every row was worth to its run what it is worth by `env`. */
  ghost predicate KnownInTime(xs: seq<Attempt>, env: Env, gain: Env -> Row -> int, k: Kind) {
    AsKnown(RunOnce, HandedRows, gain, xs, FIRST_TIME, k, env)
  }

  lemma {:induction false} IncomeIsExact(xs: seq<Attempt>, env: Env, fee: FeeOf, gain: Env -> Row -> int, k: Kind)
    requires xs != [] && Growing(xs)
    requires EarnsExactly(RunOnce, HandedRows, fee, gain, k) && fee(NO_FEES) == 0
    ensures |HandedOver(xs, k)| == |ShownNow(xs, k)|
    ensures fee(Reached(xs).fees) + LearntLate(xs, env, gain, k)
      == Sum(ShownNow(xs, k), gain(env)) - LateWorth(HandedOver(xs, k), ShownNow(xs, k), gain(env))
  {
    ShownRows(xs, k);
    EarnedOverRuns(RunOnce, HandedRows, fee, gain, xs, FIRST_TIME, k);
    WorthThenLearnt(RunOnce, HandedRows, gain, xs, FIRST_TIME, k, env);
    WorthThenAndNow(HandedOver(xs, k), ShownNow(xs, k), gain(env));
  }

  /** No melt that earns a fee was revealed only after it had been handed out. */
  predicate NoFeeRevealedLate(handed: seq<Row>, now: seq<Row>, env: Env)
    requires |handed| == |now|
  {
    forall i | 0 <= i < |now| && handed[i] != now[i] :: MeltFee(env)(now[i]) == 0
  }

  /**
   * Over any number of runs from the first one on, failed ones included, whatever each run knows:
   * the stored fee incomes of deposits and refunds are the fees, by `env`, of their rows below the
   * stored checkpoints, less what the runs that got the rows did not know of.  That of melts falls
   * short of it further by the fees of melts revealed after they were handed out.
   */
  lemma {:induction false} FeeIncomeIsExact(xs: seq<Attempt>, env: Env)
    requires xs != [] && Growing(xs)
    ensures Reached(xs).fees.deposit + LearntLate(xs, env, DepositFeeIn(), KDeposit)
      == Sum(ShownNow(xs, KDeposit), DepositFee(env))
    ensures Reached(xs).fees.refund + LearntLate(xs, env, RefundFeeIn(), KRefund)
      == Sum(ShownNow(xs, KRefund), RefundFee(env))
    ensures |HandedOver(xs, KMelt)| == |ShownNow(xs, KMelt)|
    ensures Reached(xs).fees.melt + LearntLate(xs, env, MeltFeeIn(), KMelt)
      <= Sum(ShownNow(xs, KMelt), MeltFee(env))
    ensures Reached(xs).fees.melt + LearntLate(xs, env, MeltFeeIn(), KMelt) == Sum(ShownNow(xs, KMelt), MeltFee(env))
      <==> NoFeeRevealedLate(HandedOver(xs, KMelt), ShownNow(xs, KMelt), env)
  {
    RunsEarnExactly();
    PlainIncome(xs, env, DepositIncome, DepositFeeIn(), KDeposit);
    PlainIncome(xs, env, RefundIncome, RefundFeeIn(), KRefund);
    IncomeIsExact(xs, env, MeltIncome, MeltFeeIn(), KMelt);
    ShownRows(xs, KMelt);
    LateMelts(HandedOver(xs, KMelt), ShownNow(xs, KMelt), env);
  }

  /** The denominations known to `was` are known to `env`, and the same. */
  predicate KnowsMore(was: Env, env: Env) {
    forall h | h in was.issues :: h in env.issues && env.issues[h] == was.issues[h]
  }

  /**
   * If denominations only ever become known, no stored fee income exceeds the fees of the rows below
   * the checkpoint.  It equals them if and only if every row was worth its fee to the run that got
   * it already, and no melt with a fee was revealed after it was handed out.
   */
  lemma {:induction false} FeeIncomeByKnowledge(xs: seq<Attempt>, env: Env)
    requires xs != [] && Growing(xs) && forall x | x in xs :: KnowsMore(x.env, env)
    ensures Reached(xs).fees.deposit <= Sum(ShownNow(xs, KDeposit), DepositFee(env))
    ensures Reached(xs).fees.deposit == Sum(ShownNow(xs, KDeposit), DepositFee(env))
      <==> KnownInTime(xs, env, DepositFeeIn(), KDeposit)
    ensures Reached(xs).fees.refund <= Sum(ShownNow(xs, KRefund), RefundFee(env))
    ensures Reached(xs).fees.refund == Sum(ShownNow(xs, KRefund), RefundFee(env))
      <==> KnownInTime(xs, env, RefundFeeIn(), KRefund)
    ensures |HandedOver(xs, KMelt)| == |ShownNow(xs, KMelt)|
    ensures Reached(xs).fees.melt <= Sum(ShownNow(xs, KMelt), MeltFee(env))
    ensures Reached(xs).fees.melt == Sum(ShownNow(xs, KMelt), MeltFee(env))
      <==> KnownInTime(xs, env, MeltFeeIn(), KMelt)
           && NoFeeRevealedLate(HandedOver(xs, KMelt), ShownNow(xs, KMelt), env)
  {
    FeeIncomeIsExact(xs, env);
    FeesByKnowledge(xs, env);
    LearntExactly(RunOnce, HandedRows, DepositFeeIn(), xs, FIRST_TIME, KDeposit, env);
    LearntExactly(RunOnce, HandedRows, RefundFeeIn(), xs, FIRST_TIME, KRefund, env);
    LearntExactly(RunOnce, HandedRows, MeltFeeIn(), xs, FIRST_TIME, KMelt, env);
  }

  lemma {:induction false} FeesByKnowledge(xs: seq<Attempt>, env: Env)
    requires forall x | x in xs :: KnowsMore(x.env, env)
    ensures forall x, row | x in xs :: DepositFeeIn()(x.env)(row) <= DepositFeeIn()(env)(row)
    ensures forall x, row | x in xs :: RefundFeeIn()(x.env)(row) <= RefundFeeIn()(env)(row)
    ensures forall x, row | x in xs :: MeltFeeIn()(x.env)(row) <= MeltFeeIn()(env)(row)
  {
  }

  /** In particular while the known denominations stay the same, whatever else changes between runs. */
  lemma {:induction false} FeeIncomeWithSameKeys(xs: seq<Attempt>, env: Env)
    requires xs != [] && Growing(xs) && forall x | x in xs :: x.env.issues == env.issues
    ensures Reached(xs).fees.deposit == Sum(ShownNow(xs, KDeposit), DepositFee(env))
    ensures Reached(xs).fees.refund == Sum(ShownNow(xs, KRefund), RefundFee(env))
    ensures |HandedOver(xs, KMelt)| == |ShownNow(xs, KMelt)|
    ensures Reached(xs).fees.melt == Sum(ShownNow(xs, KMelt), MeltFee(env)) <==>
      NoFeeRevealedLate(HandedOver(xs, KMelt), ShownNow(xs, KMelt), env)
  {
    FeeIncomeByKnowledge(xs, env);
    AsKnownAlways(RunOnce, HandedRows, DepositFeeIn(), xs, FIRST_TIME, KDeposit, env);
    AsKnownAlways(RunOnce, HandedRows, RefundFeeIn(), xs, FIRST_TIME, KRefund, env);
    AsKnownAlways(RunOnce, HandedRows, MeltFeeIn(), xs, FIRST_TIME, KMelt, env);
  }

  lemma {:induction false} PlainIncome(xs: seq<Attempt>, env: Env, fee: FeeOf, gain: Env -> Row -> int, k: Kind)
    requires xs != [] && Growing(xs) && k != KMelt
    requires EarnsExactly(RunOnce, HandedRows, fee, gain, k) && fee(NO_FEES) == 0
    ensures fee(Reached(xs).fees) + LearntLate(xs, env, gain, k) == Sum(ShownNow(xs, k), gain(env))
  {
    IncomeIsExact(xs, env, fee, gain, k);
    ShownRows(xs, k);
    NothingLate(HandedOver(xs, k), ShownNow(xs, k), gain(env));
  }

  lemma {:induction false} LateMelts(handed: seq<Row>, now: seq<Row>, env: Env)
    requires EarlierRows(handed, now)
    ensures LateWorth(handed, now, MeltFee(env)) >= 0
    ensures LateWorth(handed, now, MeltFee(env)) == 0 <==> NoFeeRevealedLate(handed, now, env)
  {
    forall i | 0 <= i < |now|
      ensures MeltFee(env)(handed[i]) <= MeltFee(env)(now[i])
      ensures handed[i] != now[i] ==> MeltFee(env)(handed[i]) == 0
    {
      assert Earlier(handed[i], now[i]);
    }
    LateWorthExactly(handed, now, MeltFee(env));
  }
}
