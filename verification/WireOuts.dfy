/** The aggregation auditor's check of outgoing wire transfers against the deposits they pay out. */
module WireOuts {
  import opened Sums
  import opened Aggregation
  import H = CoinHistory
  import F = WireFees
  import A = Amounts

  /** One coin that a wire transfer claims to pay out, with what the databases say about it. */
  datatype Share = Share(
    history: seq<H.Tx>,
    known: bool,
    validSignature: bool,
    remit: Remit,
    coinValue: nat,
    depositFee: nat,
    value: nat,
    fees: Fees)

  predicate Examined(s: Share) { s.history != [] && s.known && s.validSignature }

  /** The process exits on such a coin. */
  predicate FatalShare(s: Share) { Examined(s) && exists tx | tx in s.history :: FatalTx(s.remit, tx) }

  /** What a coin adds to the deposits paid out by the transfer. */
  function Contribution(s: Share): nat {
    if Examined(s) && s.coinValue >= s.depositFee then MerchantGain(s.remit, s.history) else 0
  }

  function Deposits(shares: seq<Share>): nat {
    if shares == [] then 0 else Deposits(shares[..|shares| - 1]) + Contribution(shares[|shares| - 1])
  }

  datatype Totals = Totals(
    feeIncome: nat,
    wirePlus: nat,
    wireMinus: nat,
    coinMinus: nat,
    badSignatureLoss: nat,
    arithmeticPlus: int,
    arithmeticMinus: int,
    next: nat)

  /** Claimed contribution against the deposits in the history; a positive result goes to the losses. */
  function ClaimExcess(s: Share): int {
    s.coinValue - s.depositFee - if s.coinValue < s.depositFee then 0 else Sum(s.history, GainOf(s.remit))
  }

  function AfterShare(t: Totals, s: Share): Totals {
    if s.history == [] || !s.known then t
    else if !s.validSignature then t.(badSignatureLoss := t.badSignatureLoss + s.coinValue)
    else t.(
      coinMinus := t.coinMinus + CoinDeltaMinus(s.remit, s.history, s.value),
      arithmeticPlus := t.arithmeticPlus + Sum(s.history, OverchargeOf(s.fees)) + Max0(-ClaimExcess(s)),
      arithmeticMinus := t.arithmeticMinus + Sum(s.history, UnderchargeOf(s.fees)) + Max0(ClaimExcess(s)))
  }

  function AfterShares(t: Totals, shares: seq<Share>): Totals {
    if shares == [] then t else AfterShare(AfterShares(t, shares[..|shares| - 1]), shares[|shares| - 1])
  }

  /** A row of the exchange's table of outgoing transfers. */
  datatype WireOut = WireOut(
    id: nat,
    time: nat,
    hasMethod: bool,
    wireMethod: string,
    hashable: bool,
    shares: seq<Share>,
    amount: nat)

  predicate FatalRow(row: WireOut) { exists s | s in row.shares :: FatalShare(s) }

  /** A fee that is unknown, or higher than the deposits, is taken to be zero. */
  function Deducted(deposits: nat, fee: F.Answer): (d: nat)
    ensures d <= deposits
  {
    if fee.Fee? && fee.fee <= deposits then fee.fee else 0
  }

  /** What a transfer paying out these deposits should have been. */
  function Payout(deposits: nat, fee: F.Answer, unit: A.Amount): (p: nat)
    ensures p <= deposits
  {
    A.RoundedDust(deposits - Deducted(deposits, fee), unit);
    A.Rounded(deposits - Deducted(deposits, fee), unit)
  }

  function Expected(row: WireOut, fee: F.Answer, unit: A.Amount): nat { Payout(Deposits(row.shares), fee, unit) }

  function Shortfall(deposits: nat, fee: F.Answer): nat {
    if fee.Fee? && fee.fee > deposits then fee.fee - deposits else 0
  }

  /** The books after comparing a transfer with its deposits. */
  function Settled(t: Totals, deposits: nat, amount: nat, fee: F.Answer, unit: A.Amount): Totals {
    var expected := Payout(deposits, fee, unit);
    t.(feeIncome := t.feeIncome + (deposits - expected),
       arithmeticPlus := t.arithmeticPlus + Shortfall(deposits, fee),
       wirePlus := t.wirePlus + Max0(amount - expected),
       wireMinus := t.wireMinus + Max0(expected - amount))
  }

  function AfterRow(t: Totals, row: WireOut, fee: F.Answer, unit: A.Amount): Totals {
    Settled(AfterShares(t, row.shares), Deposits(row.shares), row.amount, fee, unit)
  }

  datatype Outcome = Exited | Finished(totals: Totals, list: seq<F.Period>)

  /** All rows in order; a row without method is passed over, one that cannot be hashed ends the run. */
  function Run(table: seq<F.Row>, unit: A.Amount, t: Totals, list: seq<F.Period>, rows: seq<WireOut>): Outcome
    decreases |rows|
  {
    if rows == [] then Finished(t, list)
    else
      var row := rows[0];
      var u := t.(next := row.id + 1);
      if !row.hasMethod then Run(table, unit, u, list, rows[1..])
      else if !row.hashable then Finished(u, list)
      else if FatalRow(row) then Exited
      else
        var fee := F.AnswerOf(table, list, row.wireMethod, row.time);
        Run(table, unit, AfterRow(u, row, fee, unit), F.ListAfter(table, list, row.wireMethod, row.time), rows[1..])
  }

  class AggregationAuditor {
    const table: seq<F.Row>
    const unit: A.Amount
    const fees: F.FeeCache
    var feeIncome: nat
    var wirePlus: nat
    var wireMinus: nat
    var coinMinus: nat
    var badSignatureLoss: nat
    var arithmeticPlus: int
    var arithmeticMinus: int
    var next: nat

    constructor (table: seq<F.Row>, unit: A.Amount, feeIncome: nat, next: nat)
      ensures fresh(fees) && fees.list == [] && this.table == table && this.unit == unit
      ensures Snapshot() == Totals(feeIncome, 0, 0, 0, 0, 0, 0, next)
    {
      this.table, this.unit := table, unit;
      this.feeIncome, this.next := feeIncome, next;
      wirePlus, wireMinus, coinMinus, badSignatureLoss := 0, 0, 0, 0;
      arithmeticPlus, arithmeticMinus := 0, 0;
      fees := new F.FeeCache();
    }

    function Snapshot(): Totals
      reads this
    {
      Totals(feeIncome, wirePlus, wireMinus, coinMinus, badSignatureLoss, arithmeticPlus, arithmeticMinus, next)
    }

    /** Book the difference between a figure of the exchange and one of the auditor. */
    method ReportArithmetic(exchange: int, auditor: int, profitable: bool)
      modifies this`arithmeticPlus, this`arithmeticMinus
      ensures var gain := if profitable then exchange - auditor else auditor - exchange;
        && arithmeticPlus == old(arithmeticPlus) + Max0(gain)
        && arithmeticMinus == old(arithmeticMinus) + Max0(-gain)
    {
      var delta := if exchange > auditor then exchange - auditor else auditor - exchange;
      if (exchange > auditor) == profitable {
        arithmeticPlus := arithmeticPlus + delta;
      } else {
        arithmeticMinus := arithmeticMinus + delta;
      }
    }

    /** One coin of a transfer; the result is false if the process exits. */
    method WireTransferInformationCb(s: Share, deposits: nat) returns (alive: bool, sum: nat)
      modifies this`coinMinus, this`badSignatureLoss, this`arithmeticPlus, this`arithmeticMinus
      ensures alive == !FatalShare(s)
      ensures alive ==> sum == deposits + Contribution(s)
      ensures alive ==> Snapshot() == AfterShare(old(Snapshot()), s)
    {
      alive, sum := true, deposits;
      if s.history == [] || !s.known {
        return;
      }
      if !s.validSignature {
        badSignatureLoss := badSignatureLoss + s.coinValue;
        return;
      }
      var v := CheckTransactionHistory(s.remit, s.history, s.value, s.fees);
      if v.Exit? {
        return false, 0;
      }
      coinMinus := coinMinus + v.coinMinus;
      arithmeticPlus := arithmeticPlus + v.feePlus;
      arithmeticMinus := arithmeticMinus + v.feeMinus;
      if s.coinValue < s.depositFee {
        ReportArithmetic(s.coinValue, s.depositFee, false);
        return;
      }
      if v.depositGain != s.coinValue - s.depositFee {
        ReportArithmetic(s.coinValue - s.depositFee, v.depositGain, false);
      }
      sum := deposits + v.merchantGain;
    }

    /** All coins of one transfer. */
    method LookupWireTransfer(shares: seq<Share>) returns (alive: bool, sum: nat)
      modifies this`coinMinus, this`badSignatureLoss, this`arithmeticPlus, this`arithmeticMinus
      ensures alive <==> forall s | s in shares :: !FatalShare(s)
      ensures alive ==> sum == Deposits(shares) && Snapshot() == AfterShares(old(Snapshot()), shares)
    {
      sum := 0;
      for i := 0 to |shares|
        invariant forall s | s in shares[..i] :: !FatalShare(s)
        invariant sum == Deposits(shares[..i]) && Snapshot() == AfterShares(old(Snapshot()), shares[..i])
      {
        alive, sum := WireTransferInformationCb(shares[i], sum);
        if !alive {
          assert shares[i] in shares;
          return;
        }
        assert shares[..i + 1] == shares[..i] + [shares[i]];
        assert shares[..i + 1][..i] == shares[..i];
      }
      assert shares[..|shares|] == shares;
      alive := true;
    }

    /** Compare what was wired with what should have been. */
    method CompareAmount(amount: nat, expected: nat)
      modifies this`wirePlus, this`wireMinus
      ensures wirePlus == old(wirePlus) + Max0(amount - expected)
      ensures wireMinus == old(wireMinus) + Max0(expected - amount)
    {
      if amount != expected {
        if amount > expected {
          wirePlus := wirePlus + (amount - expected);
        } else {
          wireMinus := wireMinus + (expected - amount);
        }
      }
    }

    /** Subtract the wire fee if possible, round, and compare. */
    method Settle(deposits: nat, amount: nat, fee: F.Answer)
      modifies this`feeIncome, this`arithmeticPlus, this`arithmeticMinus, this`wirePlus, this`wireMinus
      ensures Snapshot() == Settled(old(Snapshot()), deposits, amount, fee, unit)
    {
      var final := deposits;
      if fee.Fee? {
        if deposits < fee.fee {
          ReportArithmetic(deposits, fee.fee, false);
        } else {
          final := deposits - fee.fee;
        }
      }
      A.RoundedDust(final, unit);
      var expected := A.Rounded(final, unit);
      feeIncome := feeIncome + (deposits - expected);
      CompareAmount(amount, expected);
    }

    /** One row with a method and a hashable destination. */
    method CheckWireOut(row: WireOut) returns (alive: bool)
      modifies this, fees
      ensures alive == !FatalRow(row)
      ensures alive ==>
        var fee := F.AnswerOf(table, old(fees.list), row.wireMethod, row.time);
        && Snapshot() == AfterRow(old(Snapshot()), row, fee, unit)
        && (var deposits := Deposits(row.shares);
            var due := if fee.Fee? && fee.fee <= deposits then fee.fee else 0;
            feeIncome == old(feeIncome) + deposits - A.Rounded(deposits - due, unit))
        && fees.list == F.ListAfter(table, old(fees.list), row.wireMethod, row.time)
    {
      var deposits;
      alive, deposits := LookupWireTransfer(row.shares);
      if !alive {
        return;
      }
      var fee, _ := fees.GetWireFee(table, row.wireMethod, row.time);
      Settle(deposits, row.amount, fee);
      GainIsFeeAndDust(old(Snapshot()), row, fee, unit);
    }

    method AnalyzeAggregations(rows: seq<WireOut>) returns (alive: bool)
      modifies this, fees
      ensures var out := Run(table, unit, old(Snapshot()), old(fees.list), rows);
        && alive == out.Finished?
        && (alive ==> Snapshot() == out.totals && fees.list == out.list)
    {
      var i := 0;
      while i < |rows|
        invariant i <= |rows|
        invariant Run(table, unit, old(Snapshot()), old(fees.list), rows)
          == Run(table, unit, Snapshot(), fees.list, rows[i..])
      {
        var row := rows[i];
        assert rows[i..][1..] == rows[i + 1..];
        next := row.id + 1;
        if row.hasMethod {
          if !row.hashable {
            return true;
          }
          alive := CheckWireOut(row);
          if !alive {
            return;
          }
        }
        i := i + 1;
      }
      alive := true;
    }
  }

  // ----- conservation -----

  /** The rows whose deposits and amounts enter the books: those with a method, up to the first unhashable one. */
  function Accounted(rows: seq<WireOut>): seq<WireOut> {
    if rows == [] then []
    else if !rows[0].hasMethod then Accounted(rows[1..])
    else if !rows[0].hashable then []
    else [rows[0]] + Accounted(rows[1..])
  }

  /** The rows a run looks at: up to the first one with a method that cannot be hashed, which it still passes. */
  function Passed(rows: seq<WireOut>): seq<WireOut> {
    if rows == [] then []
    else if rows[0].hasMethod && !rows[0].hashable then [rows[0]]
    else [rows[0]] + Passed(rows[1..])
  }

  /** The checkpoint is just past the last of them. */
  lemma {:induction false} NextExactly(
    table: seq<F.Row>, unit: A.Amount, t: Totals, list: seq<F.Period>, rows: seq<WireOut>)
    requires Run(table, unit, t, list, rows).Finished?
    ensures Run(table, unit, t, list, rows).totals.next
      == if rows == [] then t.next else Passed(rows)[|Passed(rows)| - 1].id + 1
    decreases |rows|
  {
    if rows != [] {
      var row, u := rows[0], t.(next := rows[0].id + 1);
      if !row.hasMethod {
        NextExactly(table, unit, u, list, rows[1..]);
      } else if row.hashable {
        var fee := F.AnswerOf(table, list, row.wireMethod, row.time);
        SharesLeaveWireTotals(u, row.shares);
        NextExactly(table, unit, AfterRow(u, row, fee, unit),
                    F.ListAfter(table, list, row.wireMethod, row.time), rows[1..]);
      }
    }
  }

  function WiredBy(row: WireOut): int { row.amount }

  function DepositsOf(row: WireOut): int { Deposits(row.shares) }

  lemma {:induction false} SharesLeaveWireTotals(t: Totals, shares: seq<Share>)
    ensures var u := AfterShares(t, shares);
      u.feeIncome == t.feeIncome && u.wirePlus == t.wirePlus && u.wireMinus == t.wireMinus && u.next == t.next
  {
    if shares != [] {
      SharesLeaveWireTotals(t, shares[..|shares| - 1]);
    }
  }

  lemma {:induction false} RowConserves(t: Totals, row: WireOut, fee: F.Answer, unit: A.Amount)
    ensures var u := AfterRow(t, row, fee, unit);
      row.amount + u.feeIncome + u.wireMinus + t.wirePlus
        == Deposits(row.shares) + t.feeIncome + t.wireMinus + u.wirePlus
  {
    SharesLeaveWireTotals(t, row.shares);
    A.RoundedDust(Deposits(row.shares) - Deducted(Deposits(row.shares), fee), unit);
  }

  /**
   * Over all rows of a run: what was wired, plus the fee income earned, plus what was wired too
   * little, is what the deposits came to, plus what was wired too much -- whatever fees were
   * unknown or too high and however amounts were rounded.
   */
  lemma {:induction false} Conservation(
    table: seq<F.Row>, unit: A.Amount, t: Totals, list: seq<F.Period>, rows: seq<WireOut>)
    requires Run(table, unit, t, list, rows).Finished?
    ensures var u := Run(table, unit, t, list, rows).totals;
      Sum(Accounted(rows), WiredBy) + (u.feeIncome - t.feeIncome) + (u.wireMinus - t.wireMinus)
        == Sum(Accounted(rows), DepositsOf) + (u.wirePlus - t.wirePlus)
    decreases |rows|
  {
    if rows != [] {
      var row, u := rows[0], t.(next := rows[0].id + 1);
      if !row.hasMethod {
        Conservation(table, unit, u, list, rows[1..]);
      } else if row.hashable {
        var fee := F.AnswerOf(table, list, row.wireMethod, row.time);
        RowConserves(u, row, fee, unit);
        Conservation(table, unit, AfterRow(u, row, fee, unit),
                     F.ListAfter(table, list, row.wireMethod, row.time), rows[1..]);
        assert Accounted(rows)[1..] == Accounted(rows[1..]);
      }
    }
  }

  /**
   * What the books say after one transfer.  Of the deposits the exchange keeps the fee, if it is known
   * and not above the deposits, and less than one rounding unit; the rest, rounded, is what should
   * have been wired, and any difference to that is booked.  A fee above the deposits is reported.
   */
  lemma {:induction false} GainIsFeeAndDust(t: Totals, row: WireOut, fee: F.Answer, unit: A.Amount)
    ensures var u, deposits := AfterRow(t, row, fee, unit), Deposits(row.shares);
      var kept := u.feeIncome - t.feeIncome;
      var due := if fee.Fee? && fee.fee <= deposits then fee.fee else 0;
      && 0 <= kept - due && (kept - due < A.Units(unit) || kept == due)
      && deposits - kept == A.Rounded(deposits - due, unit)
      && u.wirePlus == t.wirePlus + Max0(row.amount - (deposits - kept))
      && u.wireMinus == t.wireMinus + Max0(deposits - kept - row.amount)
      && u.arithmeticPlus == AfterShares(t, row.shares).arithmeticPlus
           + (if fee.Fee? then Max0(fee.fee - deposits) else 0)
      && u.arithmeticMinus == AfterShares(t, row.shares).arithmeticMinus
  {
    SharesLeaveWireTotals(t, row.shares);
    A.RoundedDust(Deposits(row.shares) - Deducted(Deposits(row.shares), fee), unit);
  }

  // ----- when nothing is reported -----

  /** What the deposits, the fee of the method in the database, and the rounding call for. */
  function Due(table: seq<F.Row>, unit: A.Amount, row: WireOut): int {
    var deposits, fee := Deposits(row.shares), F.FeeAt(table, row.wireMethod, row.time);
    if fee.Fee? && fee.fee <= deposits then A.Rounded(deposits - fee.fee, unit) else A.Rounded(deposits, unit)
  }

  predicate Correct(table: seq<F.Row>, unit: A.Amount, row: WireOut) { row.amount == Due(table, unit, row) }

  /** What a transfer leaves with the exchange, and by how much it is too much or too little. */
  function KeptOf(table: seq<F.Row>, unit: A.Amount): WireOut -> int {
    (row: WireOut) => Deposits(row.shares) - Due(table, unit, row)
  }

  function OverOf(table: seq<F.Row>, unit: A.Amount): WireOut -> int {
    (row: WireOut) => Max0(row.amount - Due(table, unit, row))
  }

  function UnderOf(table: seq<F.Row>, unit: A.Amount): WireOut -> int {
    (row: WireOut) => Max0(Due(table, unit, row) - row.amount)
  }

  /** What a run books, transfer by transfer, by the fees in the database. */
  ghost predicate Booked(table: seq<F.Row>, unit: A.Amount, t: Totals, u: Totals, rows: seq<WireOut>) {
    && u.feeIncome == t.feeIncome + Sum(rows, KeptOf(table, unit))
    && u.wirePlus == t.wirePlus + Sum(rows, OverOf(table, unit))
    && u.wireMinus == t.wireMinus + Sum(rows, UnderOf(table, unit))
  }

  lemma {:induction false} BookedOne(table: seq<F.Row>, unit: A.Amount, t: Totals, row: WireOut)
    ensures var u := AfterRow(t, row, F.FeeAt(table, row.wireMethod, row.time), unit);
      && u.feeIncome == t.feeIncome + KeptOf(table, unit)(row)
      && u.wirePlus == t.wirePlus + OverOf(table, unit)(row)
      && u.wireMinus == t.wireMinus + UnderOf(table, unit)(row)
  {
    GainIsFeeAndDust(t, row, F.FeeAt(table, row.wireMethod, row.time), unit);
  }

  lemma {:induction false} BookedThen(
    table: seq<F.Row>, unit: A.Amount, t: Totals, row: WireOut, mid: Totals, u: Totals, rest: seq<WireOut>)
    requires mid == AfterRow(t, row, F.FeeAt(table, row.wireMethod, row.time), unit)
    requires Booked(table, unit, mid, u, rest)
    ensures Booked(table, unit, t, u, [row] + rest)
  {
    BookedOne(table, unit, t, row);
    assert ([row] + rest)[1..] == rest;
  }

  /** If the wire methods in use have the same fees, the run books what the database calls for,
      cached fees notwithstanding. */
  lemma {:induction false} BookedExactly(
    table: seq<F.Row>, methods: set<string>, unit: A.Amount, t: Totals, list: seq<F.Period>, rows: seq<WireOut>)
    requires F.Disjoint(table) && F.SameFees(table, methods) && F.FromTable(table, methods, list)
    requires forall row | row in rows :: row.wireMethod in methods
    requires Run(table, unit, t, list, rows).Finished?
    ensures Booked(table, unit, t, Run(table, unit, t, list, rows).totals, Accounted(rows))
    decreases |rows|
  {
    if rows != [] {
      var row, u := rows[0], t.(next := rows[0].id + 1);
      if !row.hasMethod {
        BookedExactly(table, methods, unit, u, list, rows[1..]);
      } else if row.hashable {
        var m, time := row.wireMethod, row.time;
        var fee := F.AnswerOf(table, list, m, time);
        F.AnswerIsDirect(table, methods, list, m, time);
        F.ListStaysFromTable(table, methods, list, m, time);
        var mid := AfterRow(u, row, fee, unit);
        BookedExactly(table, methods, unit, mid, F.ListAfter(table, list, m, time), rows[1..]);
        BookedThen(table, unit, u, row, mid, Run(table, unit, t, list, rows).totals, Accounted(rows[1..]));
      }
    }
  }

  /** There are no differences exactly when every transfer is correct. */
  lemma {:induction false} NoDifferences(table: seq<F.Row>, unit: A.Amount, rows: seq<WireOut>)
    ensures Sum(rows, OverOf(table, unit)) >= 0 && Sum(rows, UnderOf(table, unit)) >= 0
    ensures Sum(rows, OverOf(table, unit)) == 0 && Sum(rows, UnderOf(table, unit)) == 0
      <==> forall row | row in rows :: Correct(table, unit, row)
  {
    if rows != [] {
      var rest := rows[1..];
      NoDifferences(table, unit, rest);
      assert rows == [rows[0]] + rest;
      assert Correct(table, unit, rows[0]) <==> OverOf(table, unit)(rows[0]) + UnderOf(table, unit)(rows[0]) == 0;
      assert (forall row | row in rows :: Correct(table, unit, row))
        <==> Correct(table, unit, rows[0]) && forall row | row in rest :: Correct(table, unit, row);
    }
  }

  /**
   * If the wire methods in use have the same fees, the fee income of a run is what the accounted
   * transfers should leave with the exchange, and the run books no difference exactly when every one
   * of them is correct by the database itself, cached fees notwithstanding.
   */
  lemma {:induction false} CleanExactly(
    table: seq<F.Row>, methods: set<string>, unit: A.Amount, t: Totals, list: seq<F.Period>, rows: seq<WireOut>)
    requires F.Disjoint(table) && F.SameFees(table, methods) && F.FromTable(table, methods, list)
    requires forall row | row in rows :: row.wireMethod in methods
    requires Run(table, unit, t, list, rows).Finished?
    ensures var u := Run(table, unit, t, list, rows).totals;
      && u.feeIncome == t.feeIncome + Sum(Accounted(rows), KeptOf(table, unit))
      && t.wirePlus <= u.wirePlus && t.wireMinus <= u.wireMinus
      && (u.wirePlus == t.wirePlus && u.wireMinus == t.wireMinus
          <==> forall row | row in Accounted(rows) :: Correct(table, unit, row))
  {
    BookedExactly(table, methods, unit, t, list, rows);
    NoDifferences(table, unit, Accounted(rows));
  }

  // ----- the coins of a transfer -----

  /** The coin has a history, its denomination is known, and its signature is good. */
  predicate Sound(s: Share) { s.history != [] && s.known && s.validSignature }

  /** What the merchant gets for a coin, and what is reported about it. */
  function PaidFor(s: Share): int {
    if Sound(s) && s.coinValue >= s.depositFee then Max0(Owed(s.remit, s.history)) else 0
  }

  function BadSignatureOf(s: Share): int {
    if s.history != [] && s.known && !s.validSignature then s.coinValue else 0
  }

  function CoinLossOf(s: Share): int {
    if !Sound(s) then 0
    else
      Max0(0 - Owed(s.remit, s.history)) + Max0(0 - NetSpent(s.history)) + Max0(NetSpent(s.history) - s.value)
  }

  /** By how much the claimed contribution exceeds the deposits; a claim below its own fee counts against the fee. */
  function OverclaimOf(s: Share): int {
    if !Sound(s) then 0
    else if s.coinValue < s.depositFee then s.coinValue - s.depositFee
    else s.coinValue - s.depositFee - Sum(s.history, GainOf(s.remit))
  }

  function ReportedGain(s: Share): int {
    Max0(0 - OverclaimOf(s)) + if Sound(s) then Sum(s.history, OverchargeOf(s.fees)) else 0
  }

  function ReportedLoss(s: Share): int {
    Max0(OverclaimOf(s)) + if Sound(s) then Sum(s.history, UnderchargeOf(s.fees)) else 0
  }

  /** What the coins of a transfer come to, coin by coin. */
  lemma {:induction false} SharesExactly(t: Totals, shares: seq<Share>)
    ensures Deposits(shares) == Sum(shares, PaidFor)
    ensures var u := AfterShares(t, shares);
      && u.coinMinus == t.coinMinus + Sum(shares, CoinLossOf)
      && u.badSignatureLoss == t.badSignatureLoss + Sum(shares, BadSignatureOf)
      && u.arithmeticPlus == t.arithmeticPlus + Sum(shares, ReportedGain)
      && u.arithmeticMinus == t.arithmeticMinus + Sum(shares, ReportedLoss)
  {
    if shares != [] {
      var n := |shares| - 1;
      assert shares == shares[..n] + [shares[n]];
      SharesExactly(t, shares[..n]);
      SumSnoc(shares[..n], shares[n], PaidFor);
      SumSnoc(shares[..n], shares[n], CoinLossOf);
      SumSnoc(shares[..n], shares[n], BadSignatureOf);
      SumSnoc(shares[..n], shares[n], ReportedGain);
      SumSnoc(shares[..n], shares[n], ReportedLoss);
    }
  }

  // ----- the arithmetic totals -----

  function DifferenceOf(fees: Fees): H.Tx -> int { (tx: H.Tx) => FeeDifference(fees, tx) }

  /** What a coin contributes to arithmetic gains minus losses. */
  function ShareNet(s: Share): int {
    if Examined(s) then Sum(s.history, DifferenceOf(s.fees)) - ClaimExcess(s) else 0
  }

  lemma {:induction false} OverMinusUnder(tl: seq<H.Tx>, fees: Fees)
    ensures Sum(tl, OverchargeOf(fees)) - Sum(tl, UnderchargeOf(fees)) == Sum(tl, DifferenceOf(fees))
  {
    if tl != [] {
      OverMinusUnder(tl[1..], fees);
    }
  }

  /** Arithmetic gains minus losses telescope to the net of all disagreements found. */
  lemma {:induction false} ArithmeticNet(t: Totals, shares: seq<Share>)
    ensures var u := AfterShares(t, shares);
      u.arithmeticPlus - u.arithmeticMinus == t.arithmeticPlus - t.arithmeticMinus + Sum(shares, ShareNet)
  {
    if shares != [] {
      var n := |shares| - 1;
      assert shares == shares[..n] + [shares[n]];
      SumSnoc(shares[..n], shares[n], ShareNet);
      ArithmeticNet(t, shares[..n]);
      OverMinusUnder(shares[n].history, shares[n].fees);
    }
  }
}
