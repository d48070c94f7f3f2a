/**
 * The coin auditor's ledger as values: denomination records, global totals, the moves a
 * table row makes on them, and the write-back at the end of a run.
 *
 * Amounts are natural numbers of the smallest unit (see module Amounts).
 */
module CoinLedger {
  import opened Sums

  /** Denominations and coins are named by hashes, which are taken to be injective. */
  type Hash = nat

  /** What the auditor knows about one denomination. */
  datatype Denom = Denom(balance: nat, loss: nat, risk: nat, recoup: nat, issued: nat)

  const NEW_DENOM := Denom(0, 0, 0, 0, 0)

  /** The in-memory record of a denomination touched during a run. */
  datatype Summary = Summary(denom: Denom, inDb: bool, emergency: bool)

  datatype Issue = Issue(
    value: nat,
    feeWithdraw: nat,
    feeDeposit: nat,
    feeRefresh: nat,
    feeRefund: nat,
    expireDeposit: nat)

  /** What a run can look up: denomination keys the auditor knows, the revoked ones,
      and how many coins the exchange has seen. */
  datatype Env = Env(issues: map<Hash, Issue>, revoked: set<Hash>, coinsSeen: map<Hash, nat>)

  function CoinsSeen(env: Env, h: Hash): nat { if h in env.coinsSeen then env.coinsSeen[h] else 0 }

  /** The totals that follow the denominations. */
  datatype Totals = Totals(escrow: nat, risk: nat, recoupLoss: nat)

  /** The totals that follow the rows: fee income, and what one run reports. */
  datatype Income = Income(
    depositFees: nat,
    meltFees: nat,
    refundFees: nat,
    badSigLoss: nat,
    refreshHanging: nat,
    deltaPlus: nat,
    deltaMinus: nat)

  /** The next row to look at in each of the six tables. */
  datatype Progress = Progress(
    withdraw: nat,
    refund: nat,
    recoupRefresh: nat,
    recoup: nat,
    melt: nat,
    deposit: nat)

  /**
   * What an observer has seen go by: debits that could not be subtracted from escrow,
   * recoup-refresh credits (which never reach escrow), the number of coins issued, and what was
   * taken out of the denominations at expiry.
   */
  datatype Books = Books(
    unsubtracted: nat,
    recoupCredits: nat,
    coins: nat,
    revenue: nat,
    lossAtExpiry: nat,
    recoupAtExpiry: nat,
    coinsAtExpiry: nat)

  datatype State = State(
    db: map<Hash, Denom>,
    mem: map<Hash, Summary>,
    totals: Totals,
    progress: Progress,
    income: Income,
    emergencies: set<Hash>,
    countEmergencies: set<Hash>,
    books: Books)

  /** Every denomination the auditor tracks; memory is ahead of the database. */
  function View(st: State): (v: map<Hash, Denom>) {
    map h | h in st.db.Keys + st.mem.Keys :: if h in st.mem then st.mem[h].denom else st.db[h]
  }

  function NetOf(d: Denom): int { d.balance - d.loss }

  function RiskOf(d: Denom): int { d.risk }

  /** The cross-ledger identity between the denominations and the escrow total. */
  ghost predicate EscrowExplained(v: map<Hash, Denom>, t: Totals, b: Books) {
    Total(v, NetOf) + b.revenue - b.lossAtExpiry == t.escrow - b.unsubtracted + b.recoupCredits
  }

  /** The global risk is the sum of the denominations' risks. */
  ghost predicate RiskExplained(v: map<Hash, Denom>, t: Totals) {
    Total(v, RiskOf) == t.risk
  }

  function RecoupOf(d: Denom): int { d.recoup }

  function IssuedOf(d: Denom): int { d.issued }

  /** The total recoup loss is the sum of the denominations' recoups, retired ones included. */
  ghost predicate RecoupExplained(v: map<Hash, Denom>, t: Totals, b: Books) {
    Total(v, RecoupOf) + b.recoupAtExpiry == t.recoupLoss
  }

  /** Every coin issued is counted with its denomination, or was until that expired. */
  ghost predicate CoinsExplained(v: map<Hash, Denom>, b: Books) {
    Total(v, IssuedOf) + b.coinsAtExpiry == b.coins
  }

  ghost predicate Explained(v: map<Hash, Denom>, t: Totals, b: Books) {
    EscrowExplained(v, t, b) && RiskExplained(v, t) && RecoupExplained(v, t, b) && CoinsExplained(v, b)
  }

  ghost predicate Balanced(st: State) {
    && Explained(View(st), st.totals, st.books)
    && (forall h | h in st.mem :: st.mem[h].inDb == (h in st.db))
  }

  // ----- loading a denomination -----

  function LookupDenom(db: map<Hash, Denom>, h: Hash): Denom {
    if h in db then db[h] else NEW_DENOM
  }

  /** The record of `h`, fetched from the auditor database the first time it is needed. */
  function Load(st: State, h: Hash): Summary {
    if h in st.mem then st.mem[h] else Summary(LookupDenom(st.db, h), h in st.db, false)
  }

  // ----- moves -----

  /** The five ways a row changes one denomination. */
  datatype Move =
    | IssueCoin(h: Hash, amount: nat)
    | GiveBack(h: Hash, amount: nat)
    | CreditOld(h: Hash, amount: nat)
    | Spend(h: Hash, amount: nat)
    | BookRecoup(h: Hash, amount: nat)

  function MoveDenom(s: Summary, m: Move): Summary {
    var d := s.denom;
    match m
    case IssueCoin(_, v) =>
      s.(denom := d.(balance := d.balance + v, risk := d.risk + v, issued := d.issued + 1))
    case GiveBack(_, a) =>
      s.(denom := d.(balance := d.balance + a, risk := d.risk + a))
    case CreditOld(_, a) =>
      s.(denom := d.(balance := d.balance + a))
    case Spend(_, a) =>
      if d.balance < a
      then s.(denom := d.(loss := d.loss + a), emergency := true)
      else s.(denom := d.(balance := d.balance - a))
    case BookRecoup(_, a) =>
      s.(denom := d.(recoup := d.recoup + a))
  }

  function MoveTotals(t: Totals, m: Move): Totals {
    match m
    case IssueCoin(_, v) => t.(escrow := t.escrow + v, risk := t.risk + v)
    case GiveBack(_, a) => t.(escrow := t.escrow + a, risk := t.risk + a)
    case CreditOld(_, _) => t
    case Spend(_, a) => if t.escrow < a then t else t.(escrow := t.escrow - a)
    case BookRecoup(_, a) => t.(recoupLoss := t.recoupLoss + a)
  }

  function MoveBooks(t: Totals, b: Books, m: Move): Books {
    match m
    case IssueCoin(_, _) => b.(coins := b.coins + 1)
    case CreditOld(_, a) => b.(recoupCredits := b.recoupCredits + a)
    case Spend(_, a) => if t.escrow < a then b.(unsubtracted := b.unsubtracted + a) else b
    case _ => b
  }

  function Apply(st: State, m: Move): State {
    st.(mem := st.mem[m.h := MoveDenom(Load(st, m.h), m)],
        totals := MoveTotals(st.totals, m),
        books := MoveBooks(st.totals, st.books, m))
  }

  function ApplyAll(st: State, ms: seq<Move>): State
    decreases |ms|
  {
    if ms == [] then st else ApplyAll(Apply(st, ms[0]), ms[1..])
  }

  lemma {:induction false} ViewAfterApply(st: State, m: Move)
    ensures View(Apply(st, m)) == View(st)[m.h := MoveDenom(Load(st, m.h), m).denom]
  {
  }

  lemma {:induction false} ViewShows(st: State, h: Hash)
    ensures if h in View(st) then View(st)[h] == Load(st, h).denom else Load(st, h).denom == NEW_DENOM
  {
  }

  /** A move changes the denomination, the totals and the books by matching amounts. */
  lemma {:induction false} MoveMatches(s: Summary, t: Totals, b: Books, m: Move)
    ensures var d, d', t', b' := s.denom, MoveDenom(s, m).denom, MoveTotals(t, m), MoveBooks(t, b, m);
      && NetOf(d') - NetOf(d)
         == (t'.escrow - t.escrow) - (b'.unsubtracted - b.unsubtracted) + (b'.recoupCredits - b.recoupCredits)
      && RiskOf(d') - RiskOf(d) == t'.risk - t.risk
      && RecoupOf(d') - RecoupOf(d) == t'.recoupLoss - t.recoupLoss
      && IssuedOf(d') - IssuedOf(d) == b'.coins - b.coins
      && b'.revenue == b.revenue && b'.lossAtExpiry == b.lossAtExpiry
      && b'.recoupAtExpiry == b.recoupAtExpiry && b'.coinsAtExpiry == b.coinsAtExpiry
      && MoveDenom(s, m).inDb == s.inDb
  {
  }

  lemma {:induction false} MoveKeepsExplained(v: map<Hash, Denom>, s: Summary, t: Totals, b: Books, m: Move)
    requires Explained(v, t, b)
    requires Recorded(v, m.h, s.denom)
    ensures Explained(v[m.h := MoveDenom(s, m).denom], MoveTotals(t, m), MoveBooks(t, b, m))
  {
    TotalUpdate(v, m.h, MoveDenom(s, m).denom, NetOf);
    TotalUpdate(v, m.h, MoveDenom(s, m).denom, RiskOf);
    TotalUpdate(v, m.h, MoveDenom(s, m).denom, RecoupOf);
    TotalUpdate(v, m.h, MoveDenom(s, m).denom, IssuedOf);
    MoveMatches(s, t, b, m);
  }

  /** A tracked denomination enters the sums with what its record says. */
  predicate Recorded(v: map<Hash, Denom>, h: Hash, d: Denom) {
    && At(v, h, NetOf) == NetOf(d) && At(v, h, RiskOf) == RiskOf(d)
    && At(v, h, RecoupOf) == RecoupOf(d) && At(v, h, IssuedOf) == IssuedOf(d)
  }

  lemma {:induction false} LoadIsRecorded(v: map<Hash, Denom>, h: Hash, d: Denom)
    requires if h in v then v[h] == d else d == NEW_DENOM
    ensures Recorded(v, h, d)
  {
  }

  lemma {:induction false} ApplyKeepsExplained(
    v: map<Hash, Denom>, v': map<Hash, Denom>, s: Summary, t: Totals, b: Books, m: Move)
    requires Explained(v, t, b) && Recorded(v, m.h, s.denom) && v' == v[m.h := MoveDenom(s, m).denom]
    ensures Explained(v', MoveTotals(t, m), MoveBooks(t, b, m))
  {
    MoveKeepsExplained(v, s, t, b, m);
  }

  lemma {:induction false} ApplyKeepsBalanced(st: State, m: Move)
    requires Balanced(st)
    ensures Balanced(Apply(st, m))
  {
    var st' := Apply(st, m);
    assert Explained(View(st'), st'.totals, st'.books) by {
      ViewShows(st, m.h);
      LoadIsRecorded(View(st), m.h, Load(st, m.h).denom);
      ViewAfterApply(st, m);
      ApplyKeepsExplained(View(st), View(st'), Load(st, m.h), st.totals, st.books, m);
    }
    assert forall h | h in st'.mem :: st'.mem[h].inDb == (h in st'.db) by {
      assert Load(st, m.h).inDb == (m.h in st.db);
    }
  }

  lemma {:induction false} ApplyAllKeepsBalanced(st: State, ms: seq<Move>)
    requires Balanced(st)
    ensures Balanced(ApplyAll(st, ms))
    decreases |ms|
  {
    if ms != [] {
      ApplyKeepsBalanced(st, ms[0]);
      ApplyAllKeepsBalanced(Apply(st, ms[0]), ms[1..]);
    }
  }

  lemma {:induction false} ApplyAllAppend(st: State, ms: seq<Move>, ns: seq<Move>)
    ensures ApplyAll(st, ms + ns) == ApplyAll(ApplyAll(st, ms), ns)
    decreases |ms|
  {
    if ms == [] {
      assert ms + ns == ns;
    } else {
      assert (ms + ns)[1..] == ms[1..] + ns;
      ApplyAllAppend(Apply(st, ms[0]), ms[1..], ns);
    }
  }

  /** Moves leave the database, the checkpoints, the income and the reported emergencies alone. */
  lemma {:induction false} ApplyAllFrame(st: State, ms: seq<Move>)
    ensures var st' := ApplyAll(st, ms);
      && st'.db == st.db && st'.progress == st.progress && st'.income == st.income
      && st'.emergencies == st.emergencies && st'.countEmergencies == st.countEmergencies
    decreases |ms|
  {
    if ms != [] {
      ApplyAllFrame(Apply(st, ms[0]), ms[1..]);
    }
  }

  // ----- rows -----

  /**
   * One row of an exchange table.  `coinOk`, `sigOk` and `wireOk` are the outcomes of the
   * checks on the coin's denomination signature, the operation's signature and the wire
   * details; `newCoins` lists the denominations of the coins revealed for a melt.
   */
  datatype Row =
    | Withdraw(id: nat, h: Hash)
    | Refund(id: nat, h: Hash, amount: nat, sigOk: bool)
    | RecoupRefresh(id: nat, oldH: Hash, h: Hash, amount: nat, coinOk: bool, sigOk: bool)
    | Recoup(id: nat, h: Hash, amount: nat, coinOk: bool, sigOk: bool)
    | Melt(id: nat, h: Hash, amount: nat, coinOk: bool, sigOk: bool, newCoins: seq<Hash>)
    | Deposit(id: nat, h: Hash, amount: nat, coinOk: bool, wireOk: bool, sigOk: bool)

  /** How a callback hands control back: next row, end of this table, or end of the process. */
  datatype Outcome = Next(st: State) | EndTable(st: State) | Abort {
    predicate IsFailure() { Abort? }
    function PropagateFailure(): Outcome requires Abort? { Abort }
    function Extract(): State requires !Abort? { st }
  }

  datatype Kind = KWithdraw | KRefund | KRecoupRefresh | KRecoup | KMelt | KDeposit

  function KindOf(row: Row): Kind {
    match row
    case Withdraw(_, _) => KWithdraw
    case Refund(_, _, _, _) => KRefund
    case RecoupRefresh(_, _, _, _, _, _) => KRecoupRefresh
    case Recoup(_, _, _, _, _) => KRecoup
    case Melt(_, _, _, _, _, _) => KMelt
    case Deposit(_, _, _, _, _, _) => KDeposit
  }

  function NextId(p: Progress, k: Kind): nat {
    match k
    case KWithdraw => p.withdraw
    case KRefund => p.refund
    case KRecoupRefresh => p.recoupRefresh
    case KRecoup => p.recoup
    case KMelt => p.melt
    case KDeposit => p.deposit
  }

  function Advance(p: Progress, k: Kind, id: nat): (p': Progress)
    ensures NextId(p', k) == id + 1
    ensures forall j | j != k :: NextId(p', j) == NextId(p, j)
  {
    match k
    case KWithdraw => p.(withdraw := id + 1)
    case KRefund => p.(refund := id + 1)
    case KRecoupRefresh => p.(recoupRefresh := id + 1)
    case KRecoup => p.(recoup := id + 1)
    case KMelt => p.(melt := id + 1)
    case KDeposit => p.(deposit := id + 1)
  }

  /** A melt counts once its reveal is known, down to the last fresh coin's denomination. */
  predicate Revealed(env: Env, row: Row)
    requires row.Melt?
  {
    row.newCoins != [] && forall f | f in row.newCoins :: f in env.issues
  }

  /** A refund that does not even cover its fee trips an assertion and ends the process. */
  predicate Fatal(env: Env, row: Row) {
    row.Refund? && row.h in env.issues && row.sigOk && row.amount < env.issues[row.h].feeRefund
  }

  predicate UnknownRefund(env: Env, row: Row) {
    row.Refund? && row.h !in env.issues
  }

  function IssueMoves(env: Env, newCoins: seq<Hash>): (ms: seq<Move>)
    requires forall f | f in newCoins :: f in env.issues
    ensures |ms| == |newCoins|
    ensures forall i | 0 <= i < |ms| :: ms[i] == IssueCoin(newCoins[i], env.issues[newCoins[i]].value)
  {
    seq(|newCoins|, i requires 0 <= i < |newCoins| => IssueCoin(newCoins[i], env.issues[newCoins[i]].value))
  }

  function RecoupMoves(env: Env, h: Hash, amount: nat, sigOk: bool): seq<Move> {
    if h in env.issues && sigOk then [BookRecoup(h, amount)] else []
  }

  /** The moves of an accepted row, in the order in which the callback makes them. */
  function Moves(env: Env, row: Row): seq<Move>
    requires !Fatal(env, row)
  {
    match row
    case Withdraw(_, h) =>
      if h in env.issues then [IssueCoin(h, env.issues[h].value)] else []
    case Refund(_, h, a, sigOk) =>
      if h in env.issues && sigOk then [GiveBack(h, a - env.issues[h].feeRefund)] else []
    case RecoupRefresh(_, oldH, h, a, _, sigOk) =>
      (if oldH in env.issues then [CreditOld(oldH, a)] else []) + RecoupMoves(env, h, a, sigOk)
    case Recoup(_, h, a, _, sigOk) =>
      RecoupMoves(env, h, a, sigOk)
    case Melt(_, h, a, _, _, newCoins) =>
      if h in env.issues && Revealed(env, row)
      then IssueMoves(env, newCoins) + [Spend(h, a)]
      else []
    case Deposit(_, h, a, _, wireOk, sigOk) =>
      if h in env.issues && wireOk && sigOk then [Spend(h, a)] else []
  }

  function Penalty(bad: bool, amount: nat): nat { if bad then amount else 0 }

  /** The cost of the fresh coins of a melt: their values and withdrawal fees. */
  function RefreshCost(env: Env, newCoins: seq<Hash>): nat
    requires forall f | f in newCoins :: f in env.issues
  {
    if newCoins == [] then 0 else
      RefreshCost(env, newCoins[..|newCoins| - 1])
      + env.issues[newCoins[|newCoins| - 1]].feeWithdraw + env.issues[newCoins[|newCoins| - 1]].value
  }

  function RecoupBadSig(env: Env, h: Hash, amount: nat, coinOk: bool, sigOk: bool): nat {
    // an invalid coin is counted by the recoup check and once more by the coin check
    Penalty(!coinOk, amount) + Penalty(!coinOk, amount)
    + if !sigOk then amount else Penalty(h !in env.revoked, amount)
  }

  /** A revealed melt earns its fee, and is compared with what its new coins cost. */
  function SettledIncome(env: Env, r: Income, row: Row): Income
    requires row.Melt? && row.h in env.issues && Revealed(env, row)
  {
    var fee, cost := env.issues[row.h].feeRefresh, RefreshCost(env, row.newCoins);
    var contributed := if row.amount > fee then row.amount - fee else 0;
    r.(meltFees := r.meltFees + fee,
       deltaPlus := r.deltaPlus + (if row.amount <= fee then fee - row.amount else 0),
       deltaMinus := r.deltaMinus + (if cost > contributed then cost - contributed else 0))
  }

  /** What a row adds to the fee income and to the report. */
  function Book(env: Env, r: Income, row: Row): Income {
    if row.h !in env.issues then
      if row.RecoupRefresh? || row.Recoup?
      then r.(badSigLoss := r.badSigLoss + Penalty(!row.coinOk, row.amount))
      else r
    else
      var issue := env.issues[row.h];
      match row
      case Withdraw(_, _) => r
      case Refund(_, _, a, sigOk) =>
        if !sigOk then r.(badSigLoss := r.badSigLoss + a)
        else r.(refundFees := r.refundFees + issue.feeRefund)
      case RecoupRefresh(_, _, h, a, coinOk, sigOk) =>
        r.(badSigLoss := r.badSigLoss + RecoupBadSig(env, h, a, coinOk, sigOk))
      case Recoup(_, h, a, coinOk, sigOk) =>
        r.(badSigLoss := r.badSigLoss + RecoupBadSig(env, h, a, coinOk, sigOk))
      case Melt(_, h, a, coinOk, sigOk, newCoins) =>
        var r1 := r.(badSigLoss := r.badSigLoss + Penalty(!coinOk, a) + Penalty(!sigOk, a));
        if newCoins == [] then r1.(refreshHanging := r1.refreshHanging + a)
        else if !Revealed(env, row) then r1
        else SettledIncome(env, r1, row)
      case Deposit(_, _, a, coinOk, wireOk, sigOk) =>
        var r1 := r.(badSigLoss := r.badSigLoss + Penalty(!coinOk, a));
        if wireOk && sigOk then r1.(depositFees := r1.depositFees + issue.feeDeposit)
        else r1.(badSigLoss := r1.badSigLoss + a)
  }

  /** A callback moves its checkpoint past the row and books the row's income and findings. */
  function Pass(env: Env, st: State, row: Row): State {
    st.(progress := Advance(st.progress, KindOf(row), row.id), income := Book(env, st.income, row))
  }

  /** One callback. */
  function Step(env: Env, st: State, row: Row): Outcome {
    if row.id < NextId(st.progress, KindOf(row)) || Fatal(env, row) then Abort else
      var out := ApplyAll(Pass(env, st, row), Moves(env, row));
      if UnknownRefund(env, row) then EndTable(out) else Next(out)
  }

  lemma {:induction false} StepKeepsBalanced(env: Env, st: State, row: Row)
    requires Balanced(st)
    ensures var out := Step(env, st, row); !out.Abort? ==> Balanced(out.st)
  {
    if row.id >= NextId(st.progress, KindOf(row)) && !Fatal(env, row) {
      var st' := Pass(env, st, row);
      assert View(st') == View(st);
      ApplyAllKeepsBalanced(st', Moves(env, row));
    }
  }

  /** The callback a scan calls for every row. */
  type Callback = (State, Row) -> Outcome

  function CallbackOf(env: Env): Callback {
    (st: State, row: Row) => Step(env, st, row)
  }

  /** One table scan: rows in order until the table ends, a callback stops it, or the process dies. */
  function Scan(cb: Callback, st: State, rows: seq<Row>): Outcome
    decreases |rows|
  {
    if rows == [] then Next(st) else
      match cb(st, rows[0])
      case Next(st') => Scan(cb, st', rows[1..])
      case EndTable(st') => Next(st')
      case Abort => Abort
  }

  /** What every callback keeps, a whole scan keeps. */
  lemma {:induction false} ScanKeeps(cb: Callback, inv: State -> bool, st: State, rows: seq<Row>)
    requires forall st, row | inv(st) && !cb(st, row).Abort? :: inv(cb(st, row).st)
    requires inv(st)
    ensures var out := Scan(cb, st, rows); out.Abort? || (out.Next? && inv(out.st))
    decreases |rows|
  {
    if rows != [] {
      var out := cb(st, rows[0]);
      if out.Next? {
        ScanKeeps(cb, inv, out.st, rows[1..]);
      }
    }
  }

  // ----- write-back -----

  const DEPOSIT_GRACE_PERIOD: nat := 86_400_000_000

  predicate Expired(env: Env, now: nat, h: Hash) {
    h in env.issues && now > env.issues[h].expireDeposit + DEPOSIT_GRACE_PERIOD
  }

  /** What an expired denomination leaves in the books. */
  function RetireBooks(b: Books, d: Denom): Books {
    b.(revenue := b.revenue + d.balance,
       lossAtExpiry := b.lossAtExpiry + d.loss,
       recoupAtExpiry := b.recoupAtExpiry + d.recoup,
       coinsAtExpiry := b.coinsAtExpiry + d.issued)
  }

  /**
   * Write one denomination back.  An expired one is dropped, its risk released and its
   * balance booked as revenue; releasing more risk than there is would end the process.
   */
  function SyncOne(env: Env, now: nat, st: State, h: Hash): Outcome
    requires h in st.mem
  {
    var s := st.mem[h];
    var d := s.denom;
    if Expired(env, now, h) then
      if st.totals.risk < d.risk then Abort else
        Next(st.(db := st.db - {h},
                 mem := st.mem - {h},
                 totals := st.totals.(risk := st.totals.risk - d.risk),
                 books := RetireBooks(st.books, d)))
    else
      Next(st.(db := st.db[h := d],
               mem := st.mem - {h},
               emergencies := st.emergencies + (if s.emergency then {h} else {}),
               countEmergencies := st.countEmergencies + if CoinsSeen(env, h) > d.issued then {h} else {}))
  }

  lemma {:induction false} RetireKeepsExplained(v: map<Hash, Denom>, h: Hash, t: Totals, b: Books)
    requires h in v && Explained(v, t, b)
    ensures t.risk >= v[h].risk
    ensures Explained(v - {h}, t.(risk := t.risk - v[h].risk), RetireBooks(b, v[h]))
  {
    TotalRemove(v, h, RiskOf);
    TotalRemove(v, h, NetOf);
    TotalRemove(v, h, RecoupOf);
    TotalRemove(v, h, IssuedOf);
    TotalNonNegative(v - {h}, RiskOf);
  }

  /** Releasing the risk of an expired denomination can never go negative. */
  lemma {:induction false} SyncOneKeepsBalanced(env: Env, now: nat, st: State, h: Hash)
    requires Balanced(st) && h in st.mem
    ensures SyncOne(env, now, st, h).Next?
    ensures Balanced(SyncOne(env, now, st, h).st)
  {
    RetireKeepsExplained(View(st), h, st.totals, st.books);
    var st' := SyncOne(env, now, st, h).st;
    if Expired(env, now, h) {
      assert View(st') == View(st) - {h};
    } else {
      assert View(st') == View(st);
    }
  }

  /** Write back every record, in the order in which the hash map happens to yield them. */
  function Sync(env: Env, now: nat, st: State, order: seq<Hash>): Outcome
    decreases |order|
  {
    if order == [] then Next(st)
    else if order[0] !in st.mem then Sync(env, now, st, order[1..])
    else match SyncOne(env, now, st, order[0])
      case Next(st') => Sync(env, now, st', order[1..])
      case EndTable(_) => Abort
      case Abort => Abort
  }

  lemma {:induction false} SyncAppend(env: Env, now: nat, st: State, order: seq<Hash>, more: seq<Hash>)
    requires Sync(env, now, st, order).Next?
    ensures Sync(env, now, st, order + more) == Sync(env, now, Sync(env, now, st, order).st, more)
    decreases |order|
  {
    if order == [] {
      assert order + more == more;
    } else {
      assert (order + more)[1..] == order[1..] + more;
      if order[0] !in st.mem {
        SyncAppend(env, now, st, order[1..], more);
      } else {
        SyncAppend(env, now, SyncOne(env, now, st, order[0]).st, order[1..], more);
      }
    }
  }

  lemma {:induction false} SyncSnoc(env: Env, now: nat, st: State, order: seq<Hash>, st1: State, h: Hash)
    requires Sync(env, now, st, order) == Next(st1) && h in st1.mem
    ensures Sync(env, now, st, order + [h]) == SyncOne(env, now, st1, h)
  {
    SyncAppend(env, now, st, order, [h]);
    assert [h][1..] == [];
  }

  lemma {:induction false} SyncKeepsBalanced(env: Env, now: nat, st: State, order: seq<Hash>)
    requires Balanced(st)
    ensures Sync(env, now, st, order).Next?
    ensures Balanced(Sync(env, now, st, order).st)
    ensures forall h | h in st.mem && h !in order :: h in Sync(env, now, st, order).st.mem
    ensures Sync(env, now, st, order).st.mem.Keys == st.mem.Keys - (set h | h in order)
    decreases |order|
  {
    if order != [] {
      var h := order[0];
      if h in st.mem {
        SyncOneKeepsBalanced(env, now, st, h);
        SyncKeepsBalanced(env, now, SyncOne(env, now, st, h).st, order[1..]);
      } else {
        SyncKeepsBalanced(env, now, st, order[1..]);
      }
    }
  }

  /** What the write-back does to one denomination, in any order. */
  lemma {:induction false} SyncAt(env: Env, now: nat, st: State, order: seq<Hash>, h: Hash)
    requires Balanced(st) && (h in st.mem ==> h in order)
    ensures var out := Sync(env, now, st, order);
      && out.Next?
      && (h !in st.mem ==> LookupDenom(out.st.db, h) == LookupDenom(st.db, h))
      && (h in st.mem ==>
           LookupDenom(out.st.db, h) == if Expired(env, now, h) then NEW_DENOM else st.mem[h].denom)
      && (h in out.st.db <==> if h in st.mem then !Expired(env, now, h) else h in st.db)
      && (h in out.st.emergencies <==>
           h in st.emergencies || (h in st.mem && st.mem[h].emergency && !Expired(env, now, h)))
      && (h in out.st.countEmergencies <==>
           h in st.countEmergencies
           || (h in st.mem && CoinsSeen(env, h) > st.mem[h].denom.issued && !Expired(env, now, h)))
    decreases |order|
  {
    if order != [] {
      if order[0] in st.mem {
        SyncOneKeepsBalanced(env, now, st, order[0]);
        SyncAt(env, now, SyncOne(env, now, st, order[0]).st, order[1..], h);
      } else {
        SyncAt(env, now, st, order[1..], h);
      }
    }
  }

  /** The records that the write-back retires. */
  function Retiring(env: Env, now: nat, mem: map<Hash, Summary>): map<Hash, Denom> {
    map h | h in mem && Expired(env, now, h) :: mem[h].denom
  }

  function BalanceOf(d: Denom): int { d.balance }

  function LossOf(d: Denom): int { d.loss }

  /** What the write-back books at expiry, in any order; everything else it leaves alone. */
  lemma {:induction false} SyncBooks(env: Env, now: nat, st: State, order: seq<Hash>)
    requires Balanced(st) && forall h | h in st.mem :: h in order
    ensures var out := Sync(env, now, st, order);
      && out.Next?
      && out.st.books.revenue == st.books.revenue + Total(Retiring(env, now, st.mem), BalanceOf)
      && out.st.books.lossAtExpiry == st.books.lossAtExpiry + Total(Retiring(env, now, st.mem), LossOf)
      && out.st.books.recoupAtExpiry == st.books.recoupAtExpiry + Total(Retiring(env, now, st.mem), RecoupOf)
      && out.st.books.coinsAtExpiry == st.books.coinsAtExpiry + Total(Retiring(env, now, st.mem), IssuedOf)
      && out.st.books.unsubtracted == st.books.unsubtracted && out.st.books.coins == st.books.coins
      && out.st.books.recoupCredits == st.books.recoupCredits
      && out.st.totals.escrow == st.totals.escrow && out.st.totals.recoupLoss == st.totals.recoupLoss
      && out.st.progress == st.progress && out.st.income == st.income
    decreases |order|
  {
    if order == [] {
      assert Retiring(env, now, st.mem) == map[];
    } else {
      var h := order[0];
      if h !in st.mem {
        SyncBooks(env, now, st, order[1..]);
      } else {
        SyncOneKeepsBalanced(env, now, st, h);
        var st' := SyncOne(env, now, st, h).st;
        assert Retiring(env, now, st'.mem) == Retiring(env, now, st.mem) - {h};
        TotalDrop(Retiring(env, now, st.mem), h, BalanceOf);
        TotalDrop(Retiring(env, now, st.mem), h, LossOf);
        TotalDrop(Retiring(env, now, st.mem), h, RecoupOf);
        TotalDrop(Retiring(env, now, st.mem), h, IssuedOf);
        SyncBooks(env, now, st', order[1..]);
      }
    }
  }

  /** `order` is one of the orders in which the records in memory may be visited. */
  ghost predicate Visits(order: seq<Hash>, st: State) {
    forall h :: h in st.mem <==> h in order
  }

  /** The order in which the hash map yields the records never shows in the result. */
  lemma {:induction false} SyncOrderIrrelevant(env: Env, now: nat, st: State, order1: seq<Hash>, order2: seq<Hash>)
    requires Balanced(st) && Visits(order1, st) && Visits(order2, st)
    ensures Sync(env, now, st, order1) == Sync(env, now, st, order2)
  {
    SyncKeepsBalanced(env, now, st, order1);
    SyncKeepsBalanced(env, now, st, order2);
    SyncBooks(env, now, st, order1);
    SyncBooks(env, now, st, order2);
    var st1, st2 := Sync(env, now, st, order1).st, Sync(env, now, st, order2).st;
    assert st1.mem.Keys == {} && st2.mem.Keys == {};
    SyncSameRecords(env, now, st, order1, order2, st1, st2);
    SameLedger(st1, st2);
  }

  lemma {:induction false} SyncSameRecords(
    env: Env, now: nat, st: State, order1: seq<Hash>, order2: seq<Hash>, st1: State, st2: State)
    requires Balanced(st) && Visits(order1, st) && Visits(order2, st)
    requires Sync(env, now, st, order1) == Next(st1) && Sync(env, now, st, order2) == Next(st2)
    ensures forall h :: h in st1.db <==> h in st2.db
    ensures forall h :: LookupDenom(st1.db, h) == LookupDenom(st2.db, h)
    ensures st1.emergencies == st2.emergencies && st1.countEmergencies == st2.countEmergencies
  {
    forall h
      ensures h in st1.db <==> h in st2.db
      ensures LookupDenom(st1.db, h) == LookupDenom(st2.db, h)
      ensures h in st1.emergencies <==> h in st2.emergencies
      ensures h in st1.countEmergencies <==> h in st2.countEmergencies
    {
      SyncAt(env, now, st, order1, h);
      SyncAt(env, now, st, order2, h);
    }
  }

  lemma {:induction false} SameLedger(st1: State, st2: State)
    requires st1.mem == map[] && st2.mem == map[]
    requires forall h :: h in st1.db <==> h in st2.db
    requires forall h :: LookupDenom(st1.db, h) == LookupDenom(st2.db, h)
    requires RiskExplained(View(st1), st1.totals) && RiskExplained(View(st2), st2.totals)
    ensures st1.db == st2.db && st1.totals.risk == st2.totals.risk
  {
    assert st1.db == st2.db by {
      forall h | h in st1.db ensures st1.db[h] == st2.db[h] {
        assert LookupDenom(st1.db, h) == LookupDenom(st2.db, h);
      }
    }
    assert View(st1) == st1.db && View(st2) == st2.db;
  }
}
