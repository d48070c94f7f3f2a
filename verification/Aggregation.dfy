/** The aggregation auditor: what a coin contributes to a wire transfer, and the transfer as a whole. */
module Aggregation {
  import opened Sums
  import opened CoinHistory

  /** The contract and merchant whose aggregation is under investigation. */
  datatype Remit = Remit(merchant: Hash, contract: Hash)

  predicate Within(r: Remit, tx: Tx) {
    (tx.Deposit? || tx.Refund?) && tx.merchant == r.merchant && tx.contract == r.contract
  }

  predicate AppliesDeposit(r: Remit, tx: Tx) { tx.Deposit? && Within(r, tx) }

  predicate AppliesRefund(r: Remit, tx: Tx) { tx.Refund? && Within(r, tx) }

  /** An applicable deposit smaller than its own fee makes the process exit. */
  predicate FatalTx(r: Remit, tx: Tx) { AppliesDeposit(r, tx) && tx.amount < tx.fee }

  function GrossOf(r: Remit): Tx -> int {
    (tx: Tx) => if AppliesDeposit(r, tx) then tx.amount else 0
  }

  function GainOf(r: Remit): Tx -> int {
    (tx: Tx) => if AppliesDeposit(r, tx) then tx.amount - tx.fee else 0
  }

  function LossOf(r: Remit): Tx -> int {
    (tx: Tx) => if AppliesRefund(r, tx) then tx.amount else 0
  }

  /** The fee of the applicable deposit that comes last in the list, if there is one. */
  datatype SeenFee = NoDeposit | Fee(fee: nat)

  function LastFee(r: Remit, tl: seq<Tx>): SeenFee {
    if tl == [] then NoDeposit
    else if AppliesDeposit(r, tl[|tl| - 1]) then Fee(tl[|tl| - 1].fee)
    else LastFee(r, tl[..|tl| - 1])
  }

  predicate Refunded(r: Remit, tl: seq<Tx>) { exists tx | tx in tl :: AppliesRefund(r, tx) }

  /** The deposit fee is given back when there was both a deposit and a refund. */
  function GivenBack(r: Remit, tl: seq<Tx>): nat {
    if Refunded(r, tl) && LastFee(r, tl).Fee? then LastFee(r, tl).fee else 0
  }

  /** What the merchant is still owed for this contract, before clamping at zero. */
  function Owed(r: Remit, tl: seq<Tx>): int {
    Sum(tl, GainOf(r)) + GivenBack(r, tl) - Sum(tl, LossOf(r))
  }

  function MerchantGain(r: Remit, tl: seq<Tx>): nat {
    if Owed(r, tl) > 0 then Owed(r, tl) else 0
  }

  /** What the coin's whole history has cost it, refunds subtracted. */
  function NetSpent(tl: seq<Tx>): int { Sum(tl, SpentOf) - Sum(tl, RefundedOf) }

  /** The fees of a denomination as the auditor knows them. */
  datatype Fees = Fees(deposit: nat, melt: nat, refund: nat)

  /** By how much the exchange's fee for an entry exceeds the expected one. */
  function FeeDifference(fees: Fees, tx: Tx): int {
    match tx
    case Deposit(_, fee, _, _) => fee - fees.deposit
    case Melt(_, fee) => fee - fees.melt
    case Refund(_, fee, _, _) => fee - fees.refund
    case _ => 0
  }

  function OverchargeOf(fees: Fees): Tx -> int { (tx: Tx) => Max0(FeeDifference(fees, tx)) }

  function UnderchargeOf(fees: Fees): Tx -> int { (tx: Tx) => Max0(-FeeDifference(fees, tx)) }

  /** The result of looking at one coin's history. */
  datatype Verdict =
    | Exit
    | Verdict(merchantGain: nat, depositGain: int, coinMinus: nat, feePlus: int, feeMinus: int)

  /** Losses reported about the coin: refunds above deposits, refunds above expenses, overspending. */
  function CoinDeltaMinus(r: Remit, tl: seq<Tx>, value: nat): nat {
    Max0(-Owed(r, tl)) + Max0(-NetSpent(tl)) + Max0(NetSpent(tl) - value)
  }

  /** The pass over the list; totals are collected without regard to the order of events. */
  method CheckTransactionHistory(r: Remit, tl: seq<Tx>, value: nat, fees: Fees) returns (v: Verdict)
    ensures v.Exit? <==> exists tx | tx in tl :: FatalTx(r, tx)
    ensures v.Verdict? ==>
      && v.merchantGain == MerchantGain(r, tl)
      && v.depositGain == Sum(tl, GainOf(r))
      && v.coinMinus == CoinDeltaMinus(r, tl, value)
      && v.feePlus == Sum(tl, OverchargeOf(fees)) && v.feeMinus == Sum(tl, UnderchargeOf(fees))
  {
    var expenditures, refunds, gain, loss: int := 0, 0, 0, 0;
    var feePlus, feeMinus: int := 0, 0;
    var refundFee, depositFee := false, NoDeposit;
    for i := 0 to |tl|
      invariant expenditures == Sum(tl[..i], SpentOf) && refunds == Sum(tl[..i], RefundedOf)
      invariant gain == Sum(tl[..i], GainOf(r)) && loss == Sum(tl[..i], LossOf(r))
      invariant feePlus == Sum(tl[..i], OverchargeOf(fees)) && feeMinus == Sum(tl[..i], UnderchargeOf(fees))
      invariant depositFee == LastFee(r, tl[..i]) && refundFee == Refunded(r, tl[..i])
      invariant forall tx | tx in tl[..i] :: !FatalTx(r, tx)
    {
      var tx := tl[i];
      PassOne(r, tl, i, fees);
      expenditures := expenditures + SpentOf(tx);
      refunds := refunds + RefundedOf(tx);
      if AppliesDeposit(r, tx) {
        if tx.amount < tx.fee {
          assert tx in tl && FatalTx(r, tx);
          return Exit;
        }
        gain := gain + (tx.amount - tx.fee);
        depositFee := Fee(tx.fee);
      }
      if AppliesRefund(r, tx) {
        loss := loss + tx.amount;
        refundFee := true;
      }
      var difference := FeeDifference(fees, tx);
      if difference > 0 {
        feePlus := feePlus + difference;
      } else {
        feeMinus := feeMinus - difference;
      }
    }
    assert tl[..|tl|] == tl;
    var depositGain, minus := gain, 0;
    if refundFee && depositFee.Fee? {
      gain := gain + depositFee.fee;
    }
    if gain < loss {
      minus := minus + (loss - gain);
      gain := 0;
    } else {
      gain := gain - loss;
    }
    if expenditures < refunds {
      minus := minus + (refunds - expenditures);
    } else if expenditures - refunds > value {
      minus := minus + (expenditures - refunds - value);
    }
    v := Verdict(gain, depositGain, minus, feePlus, feeMinus);
  }

  lemma {:induction false} PassOne(r: Remit, tl: seq<Tx>, i: nat, fees: Fees)
    requires i < |tl|
    ensures Sum(tl[..i + 1], SpentOf) == Sum(tl[..i], SpentOf) + SpentOf(tl[i])
    ensures Sum(tl[..i + 1], RefundedOf) == Sum(tl[..i], RefundedOf) + RefundedOf(tl[i])
    ensures Sum(tl[..i + 1], GainOf(r)) == Sum(tl[..i], GainOf(r)) + GainOf(r)(tl[i])
    ensures Sum(tl[..i + 1], LossOf(r)) == Sum(tl[..i], LossOf(r)) + LossOf(r)(tl[i])
    ensures Sum(tl[..i + 1], OverchargeOf(fees)) == Sum(tl[..i], OverchargeOf(fees)) + OverchargeOf(fees)(tl[i])
    ensures Sum(tl[..i + 1], UnderchargeOf(fees)) == Sum(tl[..i], UnderchargeOf(fees)) + UnderchargeOf(fees)(tl[i])
    ensures LastFee(r, tl[..i + 1]) == if AppliesDeposit(r, tl[i]) then Fee(tl[i].fee) else LastFee(r, tl[..i])
    ensures Refunded(r, tl[..i + 1]) <==> Refunded(r, tl[..i]) || AppliesRefund(r, tl[i])
    ensures forall tx :: tx in tl[..i + 1] <==> tx in tl[..i] || tx == tl[i]
  {
    assert tl[..i + 1] == tl[..i] + [tl[i]];
    SumSnoc(tl[..i], tl[i], SpentOf);
    SumSnoc(tl[..i], tl[i], RefundedOf);
    SumSnoc(tl[..i], tl[i], GainOf(r));
    SumSnoc(tl[..i], tl[i], LossOf(r));
    SumSnoc(tl[..i], tl[i], OverchargeOf(fees));
    SumSnoc(tl[..i], tl[i], UnderchargeOf(fees));
    assert (tl[..i] + [tl[i]])[..|tl[..i] + [tl[i]]| - 1] == tl[..i];
  }

  // ----- entry by entry -----

  /** The entry belongs to the contract under investigation. */
  predicate Concerns(r: Remit, tx: Tx) {
    match tx
    case Deposit(_, _, m, c) => m == r.merchant && c == r.contract
    case Refund(_, _, m, c) => m == r.merchant && c == r.contract
    case _ => false
  }

  /** Nothing is owed for an empty history, and nothing has been given back. */
  lemma {:induction false} NothingOwed(r: Remit)
    ensures Owed(r, []) == 0 && GivenBack(r, []) == 0 && NetSpent([]) == 0
    ensures LastFee(r, []).NoDeposit? && !Refunded(r, [])
  {
  }

  /**
   * What one more entry changes.  A deposit of the contract adds its amount less its fee; but once
   * there is a refund, its fee is the one given back, in place of that of the deposit before.  A
   * refund takes its amount off, and the first one gives the last deposit's fee back.
   */
  lemma {:induction false} OwedAfter(r: Remit, tl: seq<Tx>, tx: Tx)
    ensures Refunded(r, tl + [tx]) <==> Refunded(r, tl) || (tx.Refund? && Concerns(r, tx))
    ensures LastFee(r, tl + [tx]) == if tx.Deposit? && Concerns(r, tx) then Fee(tx.fee) else LastFee(r, tl)
    ensures Owed(r, tl + [tx]) - Owed(r, tl) ==
      if !Concerns(r, tx) then 0
      else if tx.Deposit? then
        if Refunded(r, tl) then tx.amount - GivenBack(r, tl) else tx.amount - tx.fee
      else
        (if Refunded(r, tl) || LastFee(r, tl).NoDeposit? then 0 else LastFee(r, tl).fee) - tx.amount
    ensures Sum(tl + [tx], GainOf(r)) - Sum(tl, GainOf(r))
      == if tx.Deposit? && Concerns(r, tx) then tx.amount - tx.fee else 0
    ensures FatalTx(r, tx) <==> tx.Deposit? && Concerns(r, tx) && tx.amount < tx.fee
  {
    SumSnoc(tl, tx, GainOf(r));
    SumSnoc(tl, tx, LossOf(r));
    assert (tl + [tx])[..|tl|] == tl;
    assert forall x | x in tl :: x in tl + [tx];
    assert tx in tl + [tx];
  }

  /** What one more entry costs the coin, and by how much its fee is above or below the expected one. */
  lemma {:induction false} SpentAfter(fees: Fees, tl: seq<Tx>, tx: Tx)
    ensures NetSpent(tl + [tx]) - NetSpent(tl) ==
      match tx
      case Deposit(a, _, _, _) => a
      case Melt(a, _) => a
      case Refund(a, fee, _, _) => fee - a
      case OldCoinRecoup(a) => 0 - a
      case Recoup(a) => a
      case RecoupRefresh(a) => a
    ensures var more := Sum(tl + [tx], OverchargeOf(fees)) - Sum(tl, OverchargeOf(fees));
      var less := Sum(tl + [tx], UnderchargeOf(fees)) - Sum(tl, UnderchargeOf(fees));
      match tx
      case Deposit(_, fee, _, _) => more == Max0(fee - fees.deposit) && less == Max0(fees.deposit - fee)
      case Melt(_, fee) => more == Max0(fee - fees.melt) && less == Max0(fees.melt - fee)
      case Refund(_, fee, _, _) => more == Max0(fee - fees.refund) && less == Max0(fees.refund - fee)
      case _ => more == 0 && less == 0
  {
    SumSnoc(tl, tx, SpentOf);
    SumSnoc(tl, tx, RefundedOf);
    SumSnoc(tl, tx, OverchargeOf(fees));
    SumSnoc(tl, tx, UnderchargeOf(fees));
  }

  // ----- what the merchant gets -----

  /** The last fee is the fee of some applicable deposit, and there is one if any deposit applies. */
  lemma {:induction false} LastFeeIsAFee(r: Remit, tl: seq<Tx>)
    ensures LastFee(r, tl).Fee? ==> exists tx | tx in tl :: AppliesDeposit(r, tx) && tx.fee == LastFee(r, tl).fee
    ensures LastFee(r, tl).NoDeposit? ==> forall tx | tx in tl :: !AppliesDeposit(r, tx)
  {
    if tl != [] {
      var n := |tl| - 1;
      assert tl == tl[..n] + [tl[n]];
      LastFeeIsAFee(r, tl[..n]);
    }
  }

  /** The merchant never gets more than was deposited for the contract, fees included. */
  lemma {:induction false} GainIsBounded(r: Remit, tl: seq<Tx>)
    requires forall tx | tx in tl :: !FatalTx(r, tx)
    ensures MerchantGain(r, tl) <= Sum(tl, GrossOf(r))
  {
    SumNonNegative(tl, LossOf(r));
    SumNonNegative(tl, GrossOf(r));
    GainPlusFee(r, tl);
  }

  lemma {:induction false} GainPlusFee(r: Remit, tl: seq<Tx>)
    ensures Sum(tl, GainOf(r)) <= Sum(tl, GrossOf(r))
    ensures LastFee(r, tl).Fee? ==> Sum(tl, GainOf(r)) + LastFee(r, tl).fee <= Sum(tl, GrossOf(r))
  {
    if tl != [] {
      var n := |tl| - 1;
      assert tl == tl[..n] + [tl[n]];
      GainPlusFee(r, tl[..n]);
      SumSnoc(tl[..n], tl[n], GainOf(r));
      SumSnoc(tl[..n], tl[n], GrossOf(r));
    }
  }

  // ----- the order of the list -----

  predicate Permuted(s: seq<Tx>, t: seq<Tx>) { multiset(s) == multiset(t) }

  lemma {:induction false} PermutedSame(r: Remit, s: seq<Tx>, t: seq<Tx>)
    requires Permuted(s, t)
    ensures forall tx :: tx in s <==> tx in t
    ensures Sum(s, GainOf(r)) == Sum(t, GainOf(r)) && Sum(s, LossOf(r)) == Sum(t, LossOf(r))
    ensures Refunded(r, s) == Refunded(r, t) && NetSpent(s) == NetSpent(t)
    ensures LastFee(r, s).Fee? <==> LastFee(r, t).Fee?
  {
    assert forall tx :: tx in s <==> tx in multiset(s);
    assert forall tx :: tx in t <==> tx in multiset(t);
    SumPermutation(s, t, GainOf(r));
    SumPermutation(s, t, LossOf(r));
    SumPermutation(s, t, SpentOf);
    SumPermutation(s, t, RefundedOf);
    LastFeeIsAFee(r, s);
    LastFeeIsAFee(r, t);
  }

  /** Two applicable deposits with different fees, a refund, and enough left for it to show. */
  predicate OrderSensitive(r: Remit, tl: seq<Tx>) {
    && Refunded(r, tl)
    && exists x, y | x in tl && y in tl ::
         && AppliesDeposit(r, x) && AppliesDeposit(r, y) && x.fee < y.fee
         && Sum(tl, GainOf(r)) + y.fee > Sum(tl, LossOf(r))
  }

  /** When the list is not order-sensitive, every order gives the merchant the same amount. */
  lemma {:induction false} OrderIrrelevant(r: Remit, s: seq<Tx>, t: seq<Tx>)
    requires Permuted(s, t) && !OrderSensitive(r, s)
    ensures MerchantGain(r, s) == MerchantGain(r, t)
  {
    PermutedSame(r, s, t);
    if Refunded(r, s) && LastFee(r, s).Fee? && LastFee(r, s) != LastFee(r, t) {
      LastFeeIsAFee(r, s);
      LastFeeIsAFee(r, t);
      var x :| x in s && AppliesDeposit(r, x) && x.fee == LastFee(r, s).fee;
      var y :| y in t && AppliesDeposit(r, y) && y.fee == LastFee(r, t).fee;
      assert y in s;
    }
  }

  function MovedToEnd(tl: seq<Tx>, i: nat): seq<Tx>
    requires i < |tl|
  {
    tl[..i] + tl[i + 1..] + [tl[i]]
  }

  lemma {:induction false} MovedToEndIsPermuted(r: Remit, tl: seq<Tx>, i: nat)
    requires i < |tl| && AppliesDeposit(r, tl[i])
    ensures Permuted(tl, MovedToEnd(tl, i))
    ensures LastFee(r, MovedToEnd(tl, i)) == Fee(tl[i].fee)
  {
    assert tl == tl[..i] + [tl[i]] + tl[i + 1..];
  }

  /** Otherwise some other order of the same list gives another amount. */
  lemma {:induction false} OrderMatters(r: Remit, tl: seq<Tx>) returns (other: seq<Tx>)
    requires OrderSensitive(r, tl)
    ensures Permuted(tl, other) && MerchantGain(r, other) != MerchantGain(r, tl)
  {
    var x, y :| x in tl && y in tl
      && AppliesDeposit(r, x) && AppliesDeposit(r, y) && x.fee < y.fee
      && Sum(tl, GainOf(r)) + y.fee > Sum(tl, LossOf(r));
    var i :| 0 <= i < |tl| && tl[i] == x;
    var j :| 0 <= j < |tl| && tl[j] == y;
    GainsDiffer(r, tl, i, j);
    other := if MerchantGain(r, MovedToEnd(tl, j)) != MerchantGain(r, tl) then MovedToEnd(tl, j) else MovedToEnd(tl, i);
  }

  lemma {:induction false} GainsDiffer(r: Remit, tl: seq<Tx>, i: nat, j: nat)
    requires i < |tl| && j < |tl| && Refunded(r, tl) && AppliesDeposit(r, tl[i]) && AppliesDeposit(r, tl[j])
    requires tl[i].fee < tl[j].fee && Sum(tl, GainOf(r)) + tl[j].fee > Sum(tl, LossOf(r))
    ensures Permuted(tl, MovedToEnd(tl, i)) && Permuted(tl, MovedToEnd(tl, j))
    ensures MerchantGain(r, MovedToEnd(tl, i)) != MerchantGain(r, MovedToEnd(tl, j))
  {
    OwedWhenLast(r, tl, i);
    OwedWhenLast(r, tl, j);
  }

  /** With a refund, the deposit that comes last decides which fee is given back. */
  lemma {:induction false} OwedWhenLast(r: Remit, tl: seq<Tx>, i: nat)
    requires i < |tl| && AppliesDeposit(r, tl[i]) && Refunded(r, tl)
    ensures Permuted(tl, MovedToEnd(tl, i))
    ensures Owed(r, MovedToEnd(tl, i)) == Sum(tl, GainOf(r)) + tl[i].fee - Sum(tl, LossOf(r))
  {
    MovedToEndIsPermuted(r, tl, i);
    PermutedSame(r, tl, MovedToEnd(tl, i));
  }

  /** The order of the list shows in the merchant's gain exactly when the list is order-sensitive. */
  lemma {:induction false} OrderMattersExactly(r: Remit, tl: seq<Tx>)
    ensures OrderSensitive(r, tl) <==> exists t :: Permuted(tl, t) && MerchantGain(r, t) != MerchantGain(r, tl)
  {
    if OrderSensitive(r, tl) {
      var t := OrderMatters(r, tl);
    } else {
      forall t | Permuted(tl, t) ensures MerchantGain(r, t) == MerchantGain(r, tl) {
        OrderIrrelevant(r, tl, t);
      }
    }
  }

  // ----- the two overspend checks -----

  /** An excess found by the coin auditor is always found by the aggregation auditor, larger by the forgiven fee. */
  lemma {:induction false} ExcessIsReported(tl: seq<Tx>, value: nat)
    ensures Excess(tl, value) > 0 ==> NetSpent(tl) - value == Excess(tl, value) + Forgiven(tl)
  {
  }

  /** Both auditors, or neither, call a coin of this value overspent. */
  predicate ChecksAgree(tl: seq<Tx>, value: nat) { Excess(tl, value) > 0 <==> NetSpent(tl) > value }

  /**
   * The two checks agree on a history for every coin value exactly when there is no fee to forgive
   * -- no refund, or a last deposit fee of zero -- or nothing was spent on balance.
   */
  lemma {:induction false} ChecksAgreeExactly(tl: seq<Tx>)
    ensures (forall value: nat :: ChecksAgree(tl, value)) <==>
      !HasRefund(tl) || LastDepositFee(tl) == 0 || NetSpent(tl) <= 0
  {
    if Forgiven(tl) > 0 && NetSpent(tl) > 0 {
      var value: nat := NetSpent(tl) - 1;
      assert !ChecksAgree(tl, value);
    }
  }
}
