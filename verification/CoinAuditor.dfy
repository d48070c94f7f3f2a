/** The coin auditor as it runs: callbacks that update the records and totals in place. */
module CoinAuditor {
  import opened CoinLedger
  import opened CoinRows
  import opened CoinRuns

  /** What a callback tells the scan: go on, end this table, or the process is gone. */
  datatype Signal = Continue | StopTable | Died

  /** The callback did what the ledger prescribes. */
  ghost predicate Obeys(out: Outcome, signal: Signal, st: State) {
    match out
    case Next(st') => signal == Continue && st == st'
    case EndTable(st') => signal == StopTable && st == st'
    case Abort => signal == Died
  }

  lemma {:induction false} ApplyAllSnoc(st: State, ms: seq<Move>, m: Move)
    ensures ApplyAll(st, ms + [m]) == Apply(ApplyAll(st, ms), m)
  {
    ApplyAllAppend(st, ms, [m]);
    assert [m][1..] == [];
  }

  lemma {:induction false} ApplyOne(st: State, m: Move)
    ensures ApplyAll(st, [m]) == Apply(st, m)
  {
    assert [m] == [] + [m];
    ApplyAllSnoc(st, [], m);
  }

  /** Moves neither read nor write the income. */
  lemma {:induction false} ApplyAllIncome(st: State, r: Income, ms: seq<Move>)
    ensures ApplyAll(st.(income := r), ms) == ApplyAll(st, ms).(income := r)
    decreases |ms|
  {
    if ms != [] {
      assert Apply(st.(income := r), ms[0]) == Apply(st, ms[0]).(income := r);
      ApplyAllIncome(Apply(st, ms[0]), r, ms[1..]);
    }
  }

  /** The row did to every denomination and to the totals what its own fields say. */
  ghost predicate Affects(env: Env, row: Row, st: State, st': State) {
    && (forall h :: Effect(env, row, h, Load(st, h), Load(st', h)))
    && TotalEffect(env, row, st.totals, st'.totals)
  }

  lemma {:induction false} StepAffects(env: Env, st: State, row: Row)
    ensures var out := Step(env, st, row); !out.Abort? ==> Affects(env, row, st, out.st)
  {
    RowEffect(env, st, row, row.h);
    forall h ensures var out := Step(env, st, row); !out.Abort? ==> Effect(env, row, h, Load(st, h), Load(out.st, h)) {
      RowEffect(env, st, row, h);
    }
  }

  class Auditor {
    const env: Env

    var db: map<Hash, Denom>
    var summaries: map<Hash, Summary>
    var totals: Totals
    var progress: Progress
    var income: Income
    var emergencies: set<Hash>
    var countEmergencies: set<Hash>
    ghost var books: Books

    ghost function Now(): State
      reads this
    {
      State(db, summaries, totals, progress, income, emergencies, countEmergencies, books)
    }

    constructor (env: Env, a: Stored)
      ensures this.env == env && Now() == Begin(a)
    {
      this.env, income := env, BeginIncome(a.fees);
      db, summaries, totals, progress := a.db, map[], a.totals, a.progress;
      emergencies, countEmergencies := {}, {};
      books := a.books;
    }

    /** Fetch the record of `h`, from the auditor database if this run has not touched it yet. */
    method GetSummary(h: Hash) returns (s: Summary)
      modifies this`summaries
      ensures s == Load(old(Now()), h)
      ensures summaries == old(summaries)[h := s]
    {
      if h in summaries {
        s := summaries[h];
      } else {
        s := Summary(if h in db then db[h] else NEW_DENOM, h in db, false);
      }
      summaries := summaries[h := s];
    }

    /** A coin of denomination `h` was issued. */
    method IssueOne(h: Hash, value: nat)
      modifies this`summaries, this`totals, this`books
      ensures Now() == Apply(old(Now()), IssueCoin(h, value))
    {
      books := books.(coins := books.coins + 1);
      var s := GetSummary(h);
      var d := s.denom;
      d := d.(issued := d.issued + 1);
      d := d.(balance := d.balance + value);
      totals := totals.(escrow := totals.escrow + value);
      totals := totals.(risk := totals.risk + value);
      d := d.(risk := d.risk + value);
      summaries := summaries[h := s.(denom := d)];
    }

    /** A coin of denomination `h` was spent: book a loss if nothing is left to spend. */
    method SpendOne(h: Hash, amount: nat)
      modifies this`summaries, this`totals, this`books
      ensures Now() == Apply(old(Now()), Spend(h, amount))
    {
      var s := GetSummary(h);
      var d := s.denom;
      if d.balance < amount {
        s := s.(denom := d.(loss := d.loss + amount), emergency := true);
      } else {
        s := s.(denom := d.(balance := d.balance - amount));
      }
      summaries := summaries[h := s];
      if totals.escrow < amount {
        books := books.(unsubtracted := books.unsubtracted + amount);
      } else {
        totals := totals.(escrow := totals.escrow - amount);
      }
    }

    method WithdrawCb(row: Row) returns (signal: Signal)
      requires row.Withdraw?
      modifies this
      ensures Obeys(Step(env, old(Now()), row), signal, Now())
    {
      if row.id < progress.withdraw { return Died; }
      progress := progress.(withdraw := row.id + 1);
      if row.h !in env.issues { return Continue; }
      ApplyOne(Now(), IssueCoin(row.h, env.issues[row.h].value));
      IssueOne(row.h, env.issues[row.h].value);
      return Continue;
    }

    method RefundCb(row: Row) returns (signal: Signal)
      requires row.Refund?
      modifies this
      ensures Obeys(Step(env, old(Now()), row), signal, Now())
    {
      if row.id < progress.refund { return Died; }
      progress := progress.(refund := row.id + 1);
      if row.h !in env.issues { return StopTable; }
      if !row.sigOk {
        income := income.(badSigLoss := income.badSigLoss + row.amount);
        return Continue;
      }
      var fee := env.issues[row.h].feeRefund;
      if row.amount < fee { return Died; }
      var amount := row.amount - fee;
      ApplyOne(Pass(env, old(Now()), row), GiveBack(row.h, amount));
      var s := GetSummary(row.h);
      var d := s.denom;
      summaries := summaries[row.h := s.(denom := d.(balance := d.balance + amount, risk := d.risk + amount))];
      totals := totals.(escrow := totals.escrow + amount, risk := totals.risk + amount);
      income := income.(refundFees := income.refundFees + fee);
      return Continue;
    }

    /** The part of a recoup that concerns the recouped coin. */
    method CheckRecoup(h: Hash, amount: nat, coinOk: bool, sigOk: bool)
      modifies this`summaries, this`totals, this`income
      ensures Now() == ApplyAll(old(Now()), RecoupMoves(env, h, amount, sigOk)).(income := income)
      ensures income == old(income).(badSigLoss := old(income).badSigLoss +
        if h in env.issues then RecoupBadSig(env, h, amount, coinOk, sigOk) else Penalty(!coinOk, amount))
    {
      if !coinOk {
        income := income.(badSigLoss := income.badSigLoss + amount);
      }
      if h !in env.issues { return; }
      if !coinOk {
        income := income.(badSigLoss := income.badSigLoss + amount);
      }
      if !sigOk {
        income := income.(badSigLoss := income.badSigLoss + amount);
        return;
      }
      ApplyOne(old(Now()), BookRecoup(h, amount));
      var s := GetSummary(h);
      if h !in env.revoked {
        income := income.(badSigLoss := income.badSigLoss + amount);
      }
      summaries := summaries[h := s.(denom := s.denom.(recoup := s.denom.recoup + amount))];
      totals := totals.(recoupLoss := totals.recoupLoss + amount);
    }

    method RecoupCb(row: Row) returns (signal: Signal)
      requires row.Recoup?
      modifies this
      ensures Obeys(Step(env, old(Now()), row), signal, Now())
    {
      if row.id < progress.recoup { return Died; }
      progress := progress.(recoup := row.id + 1);
      ghost var start := Now();
      CheckRecoup(row.h, row.amount, row.coinOk, row.sigOk);
      ApplyAllIncome(start, income, RecoupMoves(env, row.h, row.amount, row.sigOk));
      return Continue;
    }

    method RecoupRefreshCb(row: Row) returns (signal: Signal)
      requires row.RecoupRefresh?
      modifies this
      ensures Obeys(Step(env, old(Now()), row), signal, Now())
    {
      if row.id < progress.recoupRefresh { return Died; }
      progress := progress.(recoupRefresh := row.id + 1);
      ghost var start := Now();
      ghost var first := if row.oldH in env.issues then [CreditOld(row.oldH, row.amount)] else [];
      if row.oldH in env.issues {
        ApplyOne(start, CreditOld(row.oldH, row.amount));
        var s := GetSummary(row.oldH);
        summaries := summaries[row.oldH := s.(denom := s.denom.(balance := s.denom.balance + row.amount))];
        books := books.(recoupCredits := books.recoupCredits + row.amount);
      }
      assert Now() == ApplyAll(start, first);
      ApplyAllAppend(start, first, RecoupMoves(env, row.h, row.amount, row.sigOk));
      CheckRecoup(row.h, row.amount, row.coinOk, row.sigOk);
      ApplyAllIncome(start, income, Moves(env, row));
      return Continue;
    }

    method DepositCb(row: Row) returns (signal: Signal)
      requires row.Deposit?
      modifies this
      ensures Obeys(Step(env, old(Now()), row), signal, Now())
    {
      if row.id < progress.deposit { return Died; }
      progress := progress.(deposit := row.id + 1);
      if row.h !in env.issues { return Continue; }
      if !row.coinOk {
        income := income.(badSigLoss := income.badSigLoss + row.amount);
      }
      if !row.wireOk || !row.sigOk {
        income := income.(badSigLoss := income.badSigLoss + row.amount);
        return Continue;
      }
      ApplyOne(Pass(env, old(Now()), row), Spend(row.h, row.amount));
      SpendOne(row.h, row.amount);
      income := income.(depositFees := income.depositFees + env.issues[row.h].feeDeposit);
      return Continue;
    }

    /** Add up what the new coins of a melt cost. */
    method CostOfNewCoins(newCoins: seq<Hash>) returns (cost: nat)
      requires forall f | f in newCoins :: f in env.issues
      ensures cost == RefreshCost(env, newCoins)
    {
      cost := 0;
      for i := 0 to |newCoins|
        invariant cost == RefreshCost(env, newCoins[..i])
      {
        assert newCoins[..i + 1][..i] == newCoins[..i];
        cost := cost + env.issues[newCoins[i]].feeWithdraw;
        cost := cost + env.issues[newCoins[i]].value;
      }
      assert newCoins[..|newCoins|] == newCoins;
    }

    /** Look up the denominations of the new coins; one unknown denomination spoils them all. */
    method AllKnown(newCoins: seq<Hash>) returns (ok: bool)
      ensures ok <==> forall f | f in newCoins :: f in env.issues
    {
      ok := true;
      for i := 0 to |newCoins|
        invariant ok <==> forall j | 0 <= j < i :: newCoins[j] in env.issues
      {
        if newCoins[i] !in env.issues {
          ok := false;
        }
      }
    }

    method IssueNewCoins(newCoins: seq<Hash>)
      requires forall f | f in newCoins :: f in env.issues
      modifies this`summaries, this`totals, this`books
      ensures Now() == ApplyAll(old(Now()), IssueMoves(env, newCoins))
    {
      ghost var ms := IssueMoves(env, newCoins);
      for i := 0 to |newCoins|
        invariant Now() == ApplyAll(old(Now()), ms[..i])
      {
        assert ms[..i + 1] == ms[..i] + [ms[i]];
        ApplyAllSnoc(old(Now()), ms[..i], ms[i]);
        IssueOne(newCoins[i], env.issues[newCoins[i]].value);
      }
      assert ms[..|newCoins|] == ms;
    }

    method RefreshSessionCb(row: Row) returns (signal: Signal)
      requires row.Melt?
      modifies this
      ensures Obeys(Step(env, old(Now()), row), signal, Now())
    {
      if row.id < progress.melt { return Died; }
      progress := progress.(melt := row.id + 1);
      if row.h !in env.issues { return Continue; }
      ghost var start := Now();
      CheckMelt(row);
      ApplyAllIncome(start, income, Moves(env, row));
      return Continue;
    }

    /** The checks on a melt of a known denomination, and its settlement if the new coins are known. */
    method CheckMelt(row: Row)
      requires row.Melt? && row.h in env.issues
      modifies this`summaries, this`totals, this`books, this`income
      ensures income == Book(env, old(income), row)
      ensures Now() == ApplyAll(old(Now()), Moves(env, row)).(income := income)
    {
      CountBadSig(!row.coinOk, row.amount);
      CountBadSig(!row.sigOk, row.amount);
      if row.newCoins == [] {
        income := income.(refreshHanging := income.refreshHanging + row.amount);
        return;
      }
      var known := AllKnown(row.newCoins);
      if !known { return; }
      ghost var start := Now();
      SettleMelt(row);
      ApplyAllIncome(old(Now()), start.income, Moves(env, row));
    }

    /** Everything that happens for a melt whose new coins are known. */
    method SettleMelt(row: Row)
      requires row.Melt? && row.h in env.issues && Revealed(env, row)
      modifies this`summaries, this`totals, this`books, this`income
      ensures income == SettledIncome(env, old(income), row)
      ensures Now() == ApplyAll(old(Now()), Moves(env, row)).(income := income)
    {
      var fee := env.issues[row.h].feeRefresh;
      var cost := CostOfNewCoins(row.newCoins);
      CompareCost(row.amount, fee, cost);
      ApplyAllIncome(old(Now()), income, Moves(env, row));
      MeltCoin(row.h, row.amount, row.newCoins);
      income := income.(meltFees := income.meltFees + fee);
    }

    method CountBadSig(bad: bool, amount: nat)
      modifies this`income
      ensures income == old(income).(badSigLoss := old(income).badSigLoss + Penalty(bad, amount))
    {
      if bad {
        income := income.(badSigLoss := income.badSigLoss + amount);
      }
    }

    /** Report a melt that does not cover its fee, or new coins it does not pay for. */
    method CompareCost(amount: nat, fee: nat, cost: nat)
      modifies this`income
      ensures var contributed := if amount > fee then amount - fee else 0;
        income == old(income).(
          deltaPlus := old(income).deltaPlus + (if amount <= fee then fee - amount else 0),
          deltaMinus := old(income).deltaMinus + (if cost > contributed then cost - contributed else 0))
    {
      var contributed := 0;
      if amount > fee {
        contributed := amount - fee;
      } else {
        income := income.(deltaPlus := income.deltaPlus + (fee - amount));
      }
      if cost > contributed {
        income := income.(deltaMinus := income.deltaMinus + (cost - contributed));
      }
    }

    /** Issue the new coins, then take the melted amount off the old one. */
    method MeltCoin(h: Hash, amount: nat, newCoins: seq<Hash>)
      requires forall f | f in newCoins :: f in env.issues
      modifies this`summaries, this`totals, this`books
      ensures Now() == ApplyAll(old(Now()), IssueMoves(env, newCoins) + [Spend(h, amount)])
    {
      ApplyAllSnoc(Now(), IssueMoves(env, newCoins), Spend(h, amount));
      IssueNewCoins(newCoins);
      SpendOne(h, amount);
    }

    /** Write one record back and forget it. */
    method SyncDenomination(now: nat, h: Hash) returns (signal: Signal)
      requires h in summaries
      modifies this
      ensures Obeys(SyncOne(env, now, old(Now()), h), signal, Now())
      ensures summaries == old(summaries) - {h}
      ensures signal == Continue ==>
        if h in env.issues && now > env.issues[h].expireDeposit + 86_400_000_000 then
          && db == old(db) - {h} && emergencies == old(emergencies) && countEmergencies == old(countEmergencies)
          && totals == old(totals).(risk := old(totals).risk - old(summaries)[h].denom.risk)
        else
          && db == old(db)[h := old(summaries)[h].denom] && totals == old(totals)
          && emergencies == old(emergencies) + (if old(summaries)[h].emergency then {h} else {})
    {
      var s := summaries[h];
      summaries := summaries - {h};
      if h in env.issues && now > env.issues[h].expireDeposit + DEPOSIT_GRACE_PERIOD {
        if totals.risk < s.denom.risk { return Died; }
        db := db - {h};
        totals := totals.(risk := totals.risk - s.denom.risk);
        books := RetireBooks(books, s.denom);
      } else {
        if s.denom.issued < CoinsSeen(env, h) {
          countEmergencies := countEmergencies + {h};
        }
        if s.emergency {
          emergencies := emergencies + {h};
        }
        db := db[h := s.denom];
      }
      return Continue;
    }

    /** Dispatch a row to the callback of its table. */
    method Callback(row: Row) returns (signal: Signal)
      modifies this
      ensures Obeys(CallbackOf(env)(old(Now()), row), signal, Now())
      ensures signal != Died ==> Affects(env, row, old(Now()), Now())
    {
      match row {
        case Withdraw(_, _) => signal := WithdrawCb(row);
        case Refund(_, _, _, _) => signal := RefundCb(row);
        case RecoupRefresh(_, _, _, _, _, _) => signal := RecoupRefreshCb(row);
        case Recoup(_, _, _, _, _) => signal := RecoupCb(row);
        case Melt(_, _, _, _, _, _) => signal := RefreshSessionCb(row);
        case Deposit(_, _, _, _, _, _) => signal := DepositCb(row);
      }
      StepAffects(env, old(Now()), row);
    }

    /** Scan the rows a query yields. */
    method ScanRows(rows: seq<Row>) returns (signal: Signal)
      modifies this
      ensures Obeys(Scan(CallbackOf(env), old(Now()), rows), signal, Now())
    {
      ghost var cb, start := CallbackOf(env), Now();
      for i := 0 to |rows|
        invariant Scan(cb, start, rows) == Scan(cb, Now(), rows[i..])
      {
        assert rows[i..][0] == rows[i] && rows[i..][1..] == rows[i + 1..];
        signal := Callback(rows[i]);
        if signal == Died { return; }
        if signal == StopTable { return Continue; }
      }
      return Continue;
    }

    /** Write everything back, in whatever order the map yields the records. */
    method SyncAll(now: nat) returns (signal: Signal, ghost order: seq<Hash>)
      modifies this
      ensures Obeys(Sync(env, now, old(Now()), order), signal, Now())
      ensures signal == Continue ==> Visits(order, old(Now())) && summaries == map[]
    {
      order := [];
      while summaries != map[]
        invariant Sync(env, now, old(Now()), order) == Next(Now())
        invariant forall h :: h in old(Now()).mem <==> h in order || h in summaries
        decreases |summaries|
      {
        var h :| h in summaries;
        SyncSnoc(env, now, old(Now()), order, Now(), h);
        signal := SyncDenomination(now, h);
        order := order + [h];
        if signal == Died { return; }
      }
      signal := Continue;
    }

    method ScanTable(t: Tables, k: Kind) returns (signal: Signal)
      modifies this
      ensures Obeys(TableScanOf(CallbackOf(env), t)(old(Now()), k), signal, Now())
    {
      signal := ScanRows(Above(RowsOf(t, k), NextId(progress, k)));
    }

    method ScanFirst(t: Tables) returns (signal: Signal)
      modifies this
      ensures Obeys(FirstTables(TableScanOf(CallbackOf(env), t), old(Now())), signal, Now())
    {
      signal := ScanTable(t, KWithdraw);
      if signal == Died { return; }
      signal := ScanTable(t, KRefund);
      if signal == Died { return; }
      signal := ScanTable(t, KRecoupRefresh);
    }

    method ScanLast(t: Tables) returns (signal: Signal)
      modifies this
      ensures Obeys(LastTables(TableScanOf(CallbackOf(env), t), old(Now())), signal, Now())
    {
      signal := ScanTable(t, KRecoup);
      if signal == Died { return; }
      signal := ScanTable(t, KMelt);
      if signal == Died { return; }
      signal := ScanTable(t, KDeposit);
    }

    method ScanAll(t: Tables) returns (signal: Signal)
      modifies this
      ensures Obeys(ScanTables(CallbackOf(env), t, old(Now())), signal, Now())
    {
      InTwoParts(TableScanOf(CallbackOf(env), t), Now());
      signal := ScanFirst(t);
      if signal == Died { return; }
      signal := ScanLast(t);
    }

    /** The whole analysis. */
    method AnalyzeCoins(t: Tables, now: nat, ghost a: Stored) returns (signal: Signal, ghost order: seq<Hash>)
      requires Now() == Begin(a)
      modifies this
      ensures Obeys(Analyze(env, now, t, order, a), signal, Now())
      ensures signal == Continue ==> Visits(order, ScanTables(CallbackOf(env), t, Begin(a)).st)
    {
      order := [];
      signal := ScanAll(t);
      if signal == Died { return; }
      signal, order := SyncAll(now);
    }
  }
}
