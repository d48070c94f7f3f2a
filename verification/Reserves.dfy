/** The reserve auditor's books: what a run over the reserve tables does to them, over any number of runs. */
module Reserves {
  import opened Sums

  type Reserve = nat

  /** What the auditor database remembers about a reserve. */
  datatype Entry = Entry(balance: nat, fees: nat)

  /** The closing fee for the account at the time of closing, as far as the exchange has published one. */
  datatype ClosingFee = Unpublished | Published(fee: nat)

  datatype Revocation = Revoked | NotRevoked | BadMasterSignature

  datatype Row =
    | Incoming(reserve: Reserve, amount: nat)
    | Withdraw(reserve: Reserve, amount: nat, fee: nat, known: bool, validSignature: bool)
    | Recoup(reserve: Reserve, amount: nat, validSignature: bool, revocation: Revocation)
    | Close(reserve: Reserve, amount: nat, fee: nat, due: ClosingFee)

  /** Withdrawals of unknown denominations or with bad signatures are not held against the reserve. */
  predicate Counts(row: Row) { row.Withdraw? ==> row.known && row.validSignature }

  function InAmount(row: Row): nat { if row.Incoming? || row.Recoup? then row.amount else 0 }

  function OutAmount(row: Row): nat { if row.Withdraw? || row.Close? then row.amount else 0 }

  function FeeAmount(row: Row): nat {
    if row.Withdraw? then row.fee else if row.Close? then row.fee else 0
  }

  /** What a row does to the reserve it is about: transfers and recoups put in, accepted withdrawals and
      closures take out. */
  function NetOf(row: Row): int {
    match row
    case Incoming(_, a) => a
    case Recoup(_, a, _, _) => a
    case Withdraw(_, a, _, known, validSignature) => if known && validSignature then 0 - a else 0
    case Close(_, a, _, _) => 0 - a
  }

  function NetFor(r: Reserve): Row -> int {
    (row: Row) => if row.reserve == r then NetOf(row) else 0
  }

  /** The fee an accepted withdrawal or a closure earns. */
  function FeeOf(row: Row): int {
    match row
    case Withdraw(_, _, fee, known, validSignature) => if known && validSignature then fee else 0
    case Close(_, _, fee, _) => fee
    case _ => 0
  }

  /** What the rows of one kind come to for a reserve. */
  function IncomingFor(r: Reserve): Row -> int {
    (row: Row) => if row.Incoming? && row.reserve == r then row.amount else 0
  }

  function RecoupedFor(r: Reserve): Row -> int {
    (row: Row) => if row.Recoup? && row.reserve == r then row.amount else 0
  }

  function WithdrawnFor(r: Reserve): Row -> int {
    (row: Row) =>
      if row.Withdraw? && row.reserve == r && row.known && row.validSignature then row.amount else 0
  }

  function ClosedFor(r: Reserve): Row -> int {
    (row: Row) => if row.Close? && row.reserve == r then row.amount else 0
  }

  function FeeFor(r: Reserve): Row -> int { (row: Row) => if row.reserve == r then FeeOf(row) else 0 }

  // ----- one run -----

  /** What is gathered about a reserve during one run. */
  datatype Summary = Summary(totalIn: nat, totalOut: nat, totalFee: nat, previous: nat, feesBefore: nat)

  type Remembered = map<Reserve, Entry>

  function BalanceOf(e: Entry): int { e.balance }

  /** A reserve that is not remembered has nothing in it. */
  function Balance(m: Remembered, r: Reserve): nat { if r in m then m[r].balance else 0 }

  function Opened(m: Remembered, found: map<Reserve, Summary>, r: Reserve): Summary {
    if r in found then found[r]
    else Summary(0, 0, 0, Balance(m, r), if r in m then m[r].fees else 0)
  }

  function Gather(m: Remembered, found: map<Reserve, Summary>, row: Row): map<Reserve, Summary> {
    if !Counts(row) then found
    else
      var s := Opened(m, found, row.reserve);
      found[row.reserve := s.(totalIn := s.totalIn + InAmount(row),
                              totalOut := s.totalOut + OutAmount(row),
                              totalFee := s.totalFee + FeeAmount(row))]
  }

  function GatherAll(m: Remembered, rows: seq<Row>): map<Reserve, Summary> {
    if rows == [] then map[] else Gather(m, GatherAll(m, rows[..|rows| - 1]), rows[|rows| - 1])
  }

  /**
   * The books: remembered reserves, escrow and fee income as stored; and, over all runs, the losses
   * from overdrawn reserves, the amounts by which the escrow would have gone below zero, and the
   * differences to the balances that the exchange shows.
   */
  datatype Books = Books(
    remembered: Remembered,
    escrow: nat,
    feeIncome: nat,
    lost: nat,
    clamped: nat,
    plus: nat,
    minus: nat)

  /** Close the gathering for one reserve; `shown` is its balance according to the exchange. */
  function Settle(b: Books, r: Reserve, s: Summary, shown: nat): Books {
    var balance := s.totalIn + s.previous;
    var left := Max0(balance - s.totalOut);
    Books(
      if balance == 0 then b.remembered - {r} else b.remembered[r := Entry(left, s.feesBefore + s.totalFee)],
      Max0(b.escrow + s.totalIn - s.totalOut),
      b.feeIncome + s.totalFee,
      b.lost + Max0(s.totalOut - balance),
      b.clamped + Max0(s.totalOut - s.totalIn - b.escrow),
      b.plus + Max0(left - shown),
      b.minus + Max0(shown - left))
  }

  /** The exchange's own summary of its reserves. */
  type Shown = Reserve -> nat

  function SettleAll(b: Books, found: map<Reserve, Summary>, order: seq<Reserve>, shown: Shown): Books
    requires forall r | r in order :: r in found
  {
    if order == [] then b
    else
      var r := order[|order| - 1];
      Settle(SettleAll(b, found, order[..|order| - 1], shown), r, found[r], shown(r))
  }

  /** The order in which a hash map hands out its keys: any order, each key once. */
  ghost predicate Enumerates(order: seq<Reserve>, found: map<Reserve, Summary>) {
    && (forall r :: r in order <==> r in found)
    && Unique(order)
  }

  function AfterRun(b: Books, rows: seq<Row>, order: seq<Reserve>, shown: Shown): Books
    requires forall r | r in order :: r in GatherAll(b.remembered, rows)
  {
    SettleAll(b, GatherAll(b.remembered, rows), order, shown)
  }

  // ----- what a run does to one reserve -----

  function Net(rows: seq<Row>, r: Reserve): int { Sum(rows, NetFor(r)) }

  lemma {:induction false} NetByKind(rows: seq<Row>, r: Reserve)
    ensures Net(rows, r)
      == Sum(rows, IncomingFor(r)) + Sum(rows, RecoupedFor(r)) - Sum(rows, WithdrawnFor(r)) - Sum(rows, ClosedFor(r))
  {
    if rows != [] {
      NetByKind(rows[1..], r);
    }
  }

  /** What was gathered about a reserve is the net effect of its rows on top of what was remembered. */
  lemma {:induction false} GatheredAt(m: Remembered, rows: seq<Row>, r: Reserve)
    ensures var found := GatherAll(m, rows);
      && (r in found ==>
            && found[r].previous == Balance(m, r)
            && found[r].totalIn - found[r].totalOut == Net(rows, r))
      && (r !in found ==> Net(rows, r) == 0)
  {
    if rows != [] {
      var n := |rows| - 1;
      GatheredAt(m, rows[..n], r);
      assert rows == rows[..n] + [rows[n]];
      SumSnoc(rows[..n], rows[n], NetFor(r));
    }
  }

  predicate Unique(order: seq<Reserve>) { forall i, j | 0 <= i < j < |order| :: order[i] != order[j] }

  lemma {:induction false} SettledAt(
    b: Books, found: map<Reserve, Summary>, order: seq<Reserve>, shown: Shown, r: Reserve)
    requires Unique(order) && forall q | q in order :: q in found
    ensures Balance(SettleAll(b, found, order, shown).remembered, r)
      == if r in order then Max0(found[r].previous + found[r].totalIn - found[r].totalOut)
         else Balance(b.remembered, r)
  {
    if order != [] {
      var n := |order| - 1;
      assert order == order[..n] + [order[n]];
      SettledAt(b, found, order[..n], shown, r);
    }
  }

  /** After a run, a reserve has what it had plus its net effect, but never less than nothing. */
  lemma {:induction false} BalanceAfterRun(b: Books, rows: seq<Row>, order: seq<Reserve>, shown: Shown, r: Reserve)
    requires Enumerates(order, GatherAll(b.remembered, rows))
    ensures Balance(AfterRun(b, rows, order, shown).remembered, r) == Max0(Balance(b.remembered, r) + Net(rows, r))
    ensures Balance(AfterRun(b, rows, order, shown).remembered, r)
      == Max0(Balance(b.remembered, r) + Sum(rows, IncomingFor(r)) + Sum(rows, RecoupedFor(r))
              - Sum(rows, WithdrawnFor(r)) - Sum(rows, ClosedFor(r)))
  {
    GatheredAt(b.remembered, rows, r);
    SettledAt(b, GatherAll(b.remembered, rows), order, shown, r);
    NetByKind(rows, r);
  }

  /** Some row of the run counts for the reserve: any but a withdrawal that is not accepted. */
  predicate Met(rows: seq<Row>, r: Reserve) {
    exists row | row in rows :: row.reserve == r && (row.Withdraw? ==> row.known && row.validSignature)
  }

  /** What was gathered about a reserve besides its net effect. */
  lemma {:induction false} GatheredFees(m: Remembered, rows: seq<Row>, r: Reserve)
    ensures var found := GatherAll(m, rows);
      && (r in found <==> Met(rows, r))
      && Sum(rows, FeeFor(r)) == (if r in found then found[r].totalFee else 0)
      && Sum(rows, IncomingFor(r)) + Sum(rows, RecoupedFor(r)) == (if r in found then found[r].totalIn else 0)
      && (r in found ==> found[r].feesBefore == if r in m then m[r].fees else 0)
  {
    if rows != [] {
      var n := |rows| - 1;
      GatheredFees(m, rows[..n], r);
      assert rows == rows[..n] + [rows[n]];
      SumSnoc(rows[..n], rows[n], FeeFor(r));
      SumSnoc(rows[..n], rows[n], IncomingFor(r));
      SumSnoc(rows[..n], rows[n], RecoupedFor(r));
      var counts := rows[n].reserve == r && (rows[n].Withdraw? ==> rows[n].known && rows[n].validSignature);
      assert Met(rows, r) <==> Met(rows[..n], r) || counts;
    }
  }

  lemma {:induction false} EntrySettled(
    b: Books, found: map<Reserve, Summary>, order: seq<Reserve>, shown: Shown, r: Reserve)
    requires Unique(order) && forall q | q in order :: q in found
    ensures var m := SettleAll(b, found, order, shown).remembered;
      if r !in order then (r in m <==> r in b.remembered) && (r in m ==> m[r] == b.remembered[r])
      else
        && (r in m <==> found[r].totalIn + found[r].previous > 0)
        && (r in m ==> m[r].fees == found[r].feesBefore + found[r].totalFee)
  {
    if order != [] {
      var n := |order| - 1;
      assert order == order[..n] + [order[n]];
      EntrySettled(b, found, order[..n], shown, r);
    }
  }

  /**
   * Which reserves a run remembers, and with what fees.  One that it does not meet stays as it was.
   * One that it meets is remembered exactly if anything was there before or came in, and then with
   * the fees of all its rows so far; otherwise it is forgotten together with its fees.
   */
  lemma {:induction false} EntryAfterRun(b: Books, rows: seq<Row>, order: seq<Reserve>, shown: Shown, r: Reserve)
    requires Enumerates(order, GatherAll(b.remembered, rows))
    ensures var m := AfterRun(b, rows, order, shown).remembered;
      if !Met(rows, r) then (r in m <==> r in b.remembered) && (r in m ==> m[r] == b.remembered[r])
      else
        && (r in m <==>
              Balance(b.remembered, r) + Sum(rows, IncomingFor(r)) + Sum(rows, RecoupedFor(r)) > 0)
        && (r in m ==>
              m[r].fees == (if r in b.remembered then b.remembered[r].fees else 0) + Sum(rows, FeeFor(r)))
  {
    GatheredAt(b.remembered, rows, r);
    GatheredFees(b.remembered, rows, r);
    EntrySettled(b, GatherAll(b.remembered, rows), order, shown, r);
  }

  // ----- the escrow -----

  ghost function TotalBalance(m: Remembered): int { Total(m, BalanceOf) }

  /** Escrow is what is remembered, less what overdrawn reserves lost, plus what clamping hid. */
  ghost predicate Balanced(b: Books) { b.escrow == TotalBalance(b.remembered) - b.lost + b.clamped }

  lemma {:induction false} SettleKeepsBalanced(b: Books, r: Reserve, s: Summary, shown: nat)
    requires Balanced(b) && s.previous == Balance(b.remembered, r)
    ensures Balanced(Settle(b, r, s, shown))
  {
    TotalDrop(b.remembered, r, BalanceOf);
    TotalUpdate(b.remembered, r,
      Entry(Max0(s.totalIn + s.previous - s.totalOut), s.feesBefore + s.totalFee), BalanceOf);
  }

  lemma {:induction false} SettleAllKeepsBalanced(
    b: Books, found: map<Reserve, Summary>, order: seq<Reserve>, shown: Shown)
    requires Balanced(b) && Unique(order)
    requires forall r | r in order :: r in found && found[r].previous == Balance(b.remembered, r)
    ensures Balanced(SettleAll(b, found, order, shown))
  {
    if order != [] {
      var n := |order| - 1;
      assert order == order[..n] + [order[n]];
      SettleAllKeepsBalanced(b, found, order[..n], shown);
      SettledAt(b, found, order[..n], shown, order[n]);
      SettleKeepsBalanced(SettleAll(b, found, order[..n], shown), order[n], found[order[n]], shown(order[n]));
    }
  }

  lemma {:induction false} RunKeepsBalanced(b: Books, rows: seq<Row>, order: seq<Reserve>, shown: Shown)
    requires Balanced(b) && Enumerates(order, GatherAll(b.remembered, rows))
    ensures Balanced(AfterRun(b, rows, order, shown))
  {
    forall r | r in order ensures GatherAll(b.remembered, rows)[r].previous == Balance(b.remembered, r) {
      GatheredAt(b.remembered, rows, r);
    }
    SettleAllKeepsBalanced(b, GatherAll(b.remembered, rows), order, shown);
  }

  lemma {:induction false} RemovalLeaves(m: Remembered, r: Reserve)
    ensures TotalBalance(m) == Balance(m, r) + TotalBalance(m - {r}) && TotalBalance(m - {r}) >= 0
  {
    TotalDrop(m, r, BalanceOf);
    TotalNonNegative(m - {r}, BalanceOf);
  }

  /**
   * When the escrow cannot be reduced: exactly when the other reserves hold less than the losses
   * not yet absorbed plus what this reserve is overdrawn by.
   */
  lemma {:induction false} ClampExactly(b: Books, r: Reserve, s: Summary, shown: nat)
    requires Balanced(b) && s.previous == Balance(b.remembered, r)
    ensures Settle(b, r, s, shown).clamped > b.clamped <==>
      TotalBalance(b.remembered - {r}) + b.clamped < b.lost + (s.totalOut - s.totalIn - s.previous)
  {
    RemovalLeaves(b.remembered, r);
  }

  predicate NotOverdrawn(found: map<Reserve, Summary>) {
    forall r | r in found :: found[r].totalOut <= found[r].totalIn + found[r].previous
  }

  /** Without losses, no order of the reserves makes the escrow subtraction fail. */
  lemma {:induction false} NoOverdrawNoClamp(b: Books, found: map<Reserve, Summary>, order: seq<Reserve>, shown: Shown)
    requires Balanced(b) && b.lost == 0 && b.clamped == 0 && Unique(order)
    requires forall r | r in order :: r in found && found[r].previous == Balance(b.remembered, r)
    requires NotOverdrawn(found)
    ensures var c := SettleAll(b, found, order, shown);
      c.lost == 0 && c.clamped == 0 && c.escrow == TotalBalance(c.remembered)
  {
    if order == [] {
      return;
    }
    var n := |order| - 1;
    assert order == order[..n] + [order[n]];
    NoOverdrawNoClamp(b, found, order[..n], shown);
    SettledAt(b, found, order[..n], shown, order[n]);
    var c := SettleAll(b, found, order[..n], shown);
    RemovalLeaves(c.remembered, order[n]);
    SettleAllKeepsBalanced(b, found, order, shown);
  }

  // ----- losses and fees of a run -----

  lemma {:induction false} LossesOnlyGrow(b: Books, found: map<Reserve, Summary>, order: seq<Reserve>, shown: Shown)
    requires forall r | r in order :: r in found
    ensures var c := SettleAll(b, found, order, shown);
      && b.lost <= c.lost && b.clamped <= c.clamped
      && (c.lost == b.lost <==>
            forall r | r in order :: found[r].totalOut <= found[r].totalIn + found[r].previous)
  {
    if order != [] {
      var n := |order| - 1;
      assert order == order[..n] + [order[n]];
      LossesOnlyGrow(b, found, order[..n], shown);
    }
  }

  function TotalFeeOf(s: Summary): int { s.totalFee }

  lemma {:induction false} FeesGathered(m: Remembered, rows: seq<Row>)
    ensures Total(GatherAll(m, rows), TotalFeeOf) == Sum(rows, FeeOf)
  {
    if rows != [] {
      var n := |rows| - 1;
      assert rows == rows[..n] + [rows[n]];
      FeesGathered(m, rows[..n]);
      SumSnoc(rows[..n], rows[n], FeeOf);
      var found, row := GatherAll(m, rows[..n]), rows[n];
      if Counts(row) {
        TotalUpdate(found, row.reserve, Gather(m, found, row)[row.reserve], TotalFeeOf);
      }
    }
  }

  function Visited(found: map<Reserve, Summary>, order: seq<Reserve>): map<Reserve, Summary>
    requires forall r | r in order :: r in found
  {
    map r | r in order :: found[r]
  }

  lemma {:induction false} VisitOneMore(
    found: map<Reserve, Summary>, order: seq<Reserve>, r: Reserve, f: Summary -> int)
    requires r in found && r !in order && forall q | q in order :: q in found
    ensures Total(Visited(found, order + [r]), f) == Total(Visited(found, order), f) + f(found[r])
  {
    assert Visited(found, order + [r]) == Visited(found, order)[r := found[r]];
    TotalUpdate(Visited(found, order), r, found[r], f);
  }

  lemma {:induction false} FeesSettled(b: Books, found: map<Reserve, Summary>, order: seq<Reserve>, shown: Shown)
    requires Unique(order) && (forall r | r in order :: r in found)
    ensures SettleAll(b, found, order, shown).feeIncome == b.feeIncome + Total(Visited(found, order), TotalFeeOf)
  {
    if order == [] {
      assert Visited(found, order) == map[];
    } else {
      var n := |order| - 1;
      assert order == order[..n] + [order[n]];
      FeesSettled(b, found, order[..n], shown);
      VisitOneMore(found, order[..n], order[n], TotalFeeOf);
    }
  }

  lemma {:induction false} FeesOfRun(b: Books, rows: seq<Row>, order: seq<Reserve>, shown: Shown)
    requires Enumerates(order, GatherAll(b.remembered, rows))
    ensures AfterRun(b, rows, order, shown).feeIncome == b.feeIncome + Sum(rows, FeeOf)
  {
    var found := GatherAll(b.remembered, rows);
    FeesGathered(b.remembered, rows);
    FeesSettled(b, found, order, shown);
    assert Visited(found, order) == found;
  }

  // ----- what the losses come to -----

  function TurnoverOf(s: Summary): int { s.totalIn - s.totalOut }

  lemma {:induction false} TurnoverGathered(m: Remembered, rows: seq<Row>)
    ensures Total(GatherAll(m, rows), TurnoverOf) == Sum(rows, NetOf)
  {
    if rows != [] {
      var n := |rows| - 1;
      assert rows == rows[..n] + [rows[n]];
      TurnoverGathered(m, rows[..n]);
      SumSnoc(rows[..n], rows[n], NetOf);
      var found, row := GatherAll(m, rows[..n]), rows[n];
      if Counts(row) {
        TotalUpdate(found, row.reserve, Gather(m, found, row)[row.reserve], TurnoverOf);
      }
    }
  }

  lemma {:induction false} SettleAccounts(b: Books, r: Reserve, s: Summary, shown: nat)
    requires s.previous == Balance(b.remembered, r)
    ensures var c := Settle(b, r, s, shown);
      TotalBalance(c.remembered) - c.lost == TotalBalance(b.remembered) - b.lost + TurnoverOf(s)
  {
    TotalDrop(b.remembered, r, BalanceOf);
    TotalUpdate(b.remembered, r,
      Entry(Max0(s.totalIn + s.previous - s.totalOut), s.feesBefore + s.totalFee), BalanceOf);
  }

  lemma {:induction false} SettleAllAccounts(b: Books, found: map<Reserve, Summary>, order: seq<Reserve>, shown: Shown)
    requires Unique(order)
    requires forall r | r in order :: r in found && found[r].previous == Balance(b.remembered, r)
    ensures var c := SettleAll(b, found, order, shown);
      TotalBalance(c.remembered) - c.lost
        == TotalBalance(b.remembered) - b.lost + Total(Visited(found, order), TurnoverOf)
  {
    if order == [] {
      assert Visited(found, order) == map[];
    } else {
      var n := |order| - 1;
      assert order == order[..n] + [order[n]];
      SettleAllAccounts(b, found, order[..n], shown);
      SettledAt(b, found, order[..n], shown, order[n]);
      SettleAccounts(SettleAll(b, found, order[..n], shown), order[n], found[order[n]], shown(order[n]));
      VisitOneMore(found, order[..n], order[n], TurnoverOf);
    }
  }

  /** What a run loses is what it remembers beyond the net of its rows. */
  lemma {:induction false} LossOfRun(b: Books, rows: seq<Row>, order: seq<Reserve>, shown: Shown)
    requires Enumerates(order, GatherAll(b.remembered, rows))
    ensures var c := AfterRun(b, rows, order, shown);
      c.lost - b.lost == TotalBalance(c.remembered) - TotalBalance(b.remembered) - Sum(rows, NetOf)
  {
    var found := GatherAll(b.remembered, rows);
    forall r | r in order ensures found[r].previous == Balance(b.remembered, r) {
      GatheredAt(b.remembered, rows, r);
    }
    SettleAllAccounts(b, found, order, shown);
    TurnoverGathered(b.remembered, rows);
    assert Visited(found, order) == found;
  }

  // ----- comparison with the exchange -----

  /** By how much the auditor's balances exceed what the exchange shows, over these reserves. */
  function AboveShown(m: Remembered, order: seq<Reserve>, shown: Shown): nat {
    if order == [] then 0
    else
      var r := order[|order| - 1];
      AboveShown(m, order[..|order| - 1], shown) + Max0(Balance(m, r) - shown(r))
  }

  /** By how much they fall short of it. */
  function BelowShown(m: Remembered, order: seq<Reserve>, shown: Shown): nat {
    if order == [] then 0
    else
      var r := order[|order| - 1];
      BelowShown(m, order[..|order| - 1], shown) + Max0(shown(r) - Balance(m, r))
  }

  lemma {:induction false} ShownSame(m: Remembered, m': Remembered, order: seq<Reserve>, shown: Shown)
    requires forall q | q in order :: Balance(m, q) == Balance(m', q)
    ensures AboveShown(m, order, shown) == AboveShown(m', order, shown)
    ensures BelowShown(m, order, shown) == BelowShown(m', order, shown)
  {
    if order != [] {
      var n := |order| - 1;
      assert order[n] in order && forall q | q in order[..n] :: q in order;
      ShownSame(m, m', order[..n], shown);
    }
  }

  /**
   * The differences a run books are those between its balances and the ones the exchange shows, over
   * the reserves touched: gains where the exchange shows less, losses where it shows more.
   */
  lemma {:induction false} DifferencesBooked(b: Books, found: map<Reserve, Summary>, order: seq<Reserve>, shown: Shown)
    requires Unique(order) && (forall r | r in order :: r in found)
    ensures var c := SettleAll(b, found, order, shown);
      && c.plus == b.plus + AboveShown(c.remembered, order, shown)
      && c.minus == b.minus + BelowShown(c.remembered, order, shown)
  {
    if order != [] {
      var n := |order| - 1;
      assert order == order[..n] + [order[n]];
      DifferencesBooked(b, found, order[..n], shown);
      SettledEarlier(b, found, order, shown);
      ShownSame(SettleAll(b, found, order[..n], shown).remembered, SettleAll(b, found, order, shown).remembered,
                order[..n], shown);
      SettledAt(b, found, order, shown, order[n]);
    }
  }

  lemma {:induction false} SettledEarlier(b: Books, found: map<Reserve, Summary>, order: seq<Reserve>, shown: Shown)
    requires order != [] && Unique(order) && (forall r | r in order :: r in found)
    ensures forall r | r in order[..|order| - 1] ::
      Balance(SettleAll(b, found, order[..|order| - 1], shown).remembered, r)
      == Balance(SettleAll(b, found, order, shown).remembered, r)
  {
    forall r | r in order[..|order| - 1]
      ensures Balance(SettleAll(b, found, order[..|order| - 1], shown).remembered, r)
        == Balance(SettleAll(b, found, order, shown).remembered, r)
    {
      SettledAt(b, found, order[..|order| - 1], shown, r);
      SettledAt(b, found, order, shown, r);
    }
  }

  /** A run books no difference exactly when the exchange shows the auditor's balance for every reserve touched. */
  lemma {:induction false} DifferencesExactly(b: Books, found: map<Reserve, Summary>, order: seq<Reserve>, shown: Shown)
    requires Unique(order) && (forall r | r in order :: r in found)
    ensures var c := SettleAll(b, found, order, shown);
      && b.plus <= c.plus && b.minus <= c.minus
      && (c.plus == b.plus && c.minus == b.minus <==> forall r | r in order :: shown(r) == Balance(c.remembered, r))
  {
    forall r | r in order
      ensures Balance(SettleAll(b, found, order, shown).remembered, r)
        == Max0(found[r].previous + found[r].totalIn - found[r].totalOut)
    {
      SettledAt(b, found, order, shown, r);
    }
    if order != [] {
      var n := |order| - 1;
      assert order == order[..n] + [order[n]];
      DifferencesExactly(b, found, order[..n], shown);
      forall r | r in order[..n]
        ensures Balance(SettleAll(b, found, order[..n], shown).remembered, r)
          == Max0(found[r].previous + found[r].totalIn - found[r].totalOut)
      {
        SettledAt(b, found, order[..n], shown, r);
      }
    }
  }
}
