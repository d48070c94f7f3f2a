/** The coin auditor's check of one coin's whole transaction history, and the cache in front of it. */
module CoinHistory {
  import opened Sums

  type Coin = nat
  type Hash = nat

  /** One entry of a coin's transaction list. */
  datatype Tx =
    | Deposit(amount: nat, fee: nat, merchant: Hash, contract: Hash)
    | Melt(amount: nat, fee: nat)
    | Refund(amount: nat, fee: nat, merchant: Hash, contract: Hash)
    | OldCoinRecoup(amount: nat)
    | Recoup(amount: nat)
    | RecoupRefresh(amount: nat)

  /** What an entry takes from the coin. */
  function SpentOf(tx: Tx): int {
    match tx
    case Deposit(a, _, _, _) => a
    case Melt(a, _) => a
    case Refund(_, fee, _, _) => fee
    case OldCoinRecoup(_) => 0
    case Recoup(a) => a
    case RecoupRefresh(a) => a
  }

  /** What an entry gives back to the coin. */
  function RefundedOf(tx: Tx): int {
    match tx
    case Refund(a, _, _, _) => a
    case OldCoinRecoup(a) => a
    case _ => 0
  }

  predicate HasRefund(tl: seq<Tx>) { exists tx | tx in tl :: tx.Refund? }

  /** The deposit fee of the deposit that comes last in the list. */
  function LastDepositFee(tl: seq<Tx>): nat {
    if tl == [] then 0
    else if tl[|tl| - 1].Deposit? then tl[|tl| - 1].fee
    else LastDepositFee(tl[..|tl| - 1])
  }

  /** One deposit fee is forgiven as soon as there is any refund. */
  function Forgiven(tl: seq<Tx>): nat { if HasRefund(tl) then LastDepositFee(tl) else 0 }

  /** By how much a coin of the given value is overspent. */
  function Excess(tl: seq<Tx>, value: nat): nat {
    var over := Sum(tl, SpentOf) - (Sum(tl, RefundedOf) + Forgiven(tl) + value);
    if over > 0 then over else 0
  }

  /** One pass over the list, without regard to the order of events. */
  method CheckCoinHistory(tl: seq<Tx>, value: nat) returns (excess: nat)
    ensures excess == Excess(tl, value)
  {
    var spent, refunded, depositFee: int := 0, 0, 0;
    var haveRefund := false;
    for i := 0 to |tl|
      invariant spent == Sum(tl[..i], SpentOf) && refunded == Sum(tl[..i], RefundedOf)
      invariant depositFee == LastDepositFee(tl[..i]) && haveRefund == HasRefund(tl[..i])
    {
      OneMoreEntry(tl, i);
      match tl[i] {
        case Deposit(a, fee, _, _) =>
          spent := spent + a;
          depositFee := fee;
        case Melt(a, _) =>
          spent := spent + a;
        case Refund(a, fee, _, _) =>
          refunded := refunded + a;
          spent := spent + fee;
          haveRefund := true;
        case OldCoinRecoup(a) =>
          refunded := refunded + a;
        case Recoup(a) =>
          spent := spent + a;
        case RecoupRefresh(a) =>
          spent := spent + a;
      }
    }
    assert tl[..|tl|] == tl;
    if haveRefund {
      refunded := refunded + depositFee;
    }
    var total := refunded + value;
    excess := if spent > total then spent - total else 0;
  }

  /** What the entries of one kind come to. */
  function DepositedBy(tx: Tx): int { if tx.Deposit? then tx.amount else 0 }
  function MeltedBy(tx: Tx): int { if tx.Melt? then tx.amount else 0 }
  function RecoupedBy(tx: Tx): int { if tx.Recoup? || tx.RecoupRefresh? then tx.amount else 0 }
  function RefundFeeBy(tx: Tx): int { if tx.Refund? then tx.fee else 0 }
  function GivenBackBy(tx: Tx): int { if tx.Refund? || tx.OldCoinRecoup? then tx.amount else 0 }

  /** Spent are deposits, melts, recoups and the fees of refunds; given back are refunds and recoups of old coins. */
  lemma {:induction false} SpentByKind(tl: seq<Tx>)
    ensures Sum(tl, SpentOf)
      == Sum(tl, DepositedBy) + Sum(tl, MeltedBy) + Sum(tl, RecoupedBy) + Sum(tl, RefundFeeBy)
    ensures Sum(tl, RefundedOf) == Sum(tl, GivenBackBy)
  {
    if tl != [] {
      SpentByKind(tl[1..]);
    }
  }

  /** Entry `i` is the deposit that comes last. */
  predicate LastDeposit(tl: seq<Tx>, i: nat) {
    i < |tl| && tl[i].Deposit? && forall j | i < j < |tl| :: !tl[j].Deposit?
  }

  /** One deposit fee is forgiven: that of the last deposit, if there is any refund at all. */
  lemma {:induction false} ForgivenExactly(tl: seq<Tx>)
    ensures forall i: nat | LastDeposit(tl, i) :: LastDepositFee(tl) == tl[i].fee
    ensures (forall tx | tx in tl :: !tx.Deposit?) ==> LastDepositFee(tl) == 0
    ensures Forgiven(tl) == if exists tx | tx in tl :: tx.Refund? then LastDepositFee(tl) else 0
  {
    if tl != [] {
      var n := |tl| - 1;
      ForgivenExactly(tl[..n]);
      assert tl == tl[..n] + [tl[n]];
      forall i: nat | LastDeposit(tl, i) ensures LastDepositFee(tl) == tl[i].fee {
        if i < n {
          assert LastDeposit(tl[..n], i);
        }
      }
    }
  }

  /** The excess, kind by kind. */
  lemma {:induction false} ExcessExactly(tl: seq<Tx>, value: nat)
    ensures Excess(tl, value)
      == Max0(Sum(tl, DepositedBy) + Sum(tl, MeltedBy) + Sum(tl, RecoupedBy) + Sum(tl, RefundFeeBy)
              - Sum(tl, GivenBackBy) - Forgiven(tl) - value)
  {
    SpentByKind(tl);
  }

  lemma {:induction false} OneMoreEntry(tl: seq<Tx>, i: nat)
    requires i < |tl|
    ensures Sum(tl[..i + 1], SpentOf) == Sum(tl[..i], SpentOf) + SpentOf(tl[i])
    ensures Sum(tl[..i + 1], RefundedOf) == Sum(tl[..i], RefundedOf) + RefundedOf(tl[i])
    ensures LastDepositFee(tl[..i + 1]) == if tl[i].Deposit? then tl[i].fee else LastDepositFee(tl[..i])
    ensures HasRefund(tl[..i + 1]) <==> HasRefund(tl[..i]) || tl[i].Refund?
  {
    SumPrefix(tl, i, SpentOf);
    SumPrefix(tl, i, RefundedOf);
    assert tl[..i + 1] == tl[..i] + [tl[i]];
    assert tl[..i + 1][..i] == tl[..i];
  }

  /** A coin as the exchange database shows it throughout one run. */
  datatype Facts = Facts(history: seq<Tx>, value: nat)

  predicate Overspent(f: Facts) { f.history != [] && Excess(f.history, f.value) > 0 }

  /** What checking a coin once adds to the reported losses. */
  function LossOf(f: Facts): int { if Overspent(f) then Excess(f.history, f.value) else 0 }

  function FactsOf(lookup: Coin -> Facts, coins: set<Coin>): map<Coin, Facts> {
    map c | c in coins :: lookup(c)
  }

  function VisitLoss(lookup: Coin -> Facts): Coin -> int {
    (c: Coin) => LossOf(lookup(c))
  }

  /** Losses counted at least once for every coin met and at most once for every visit. */
  ghost predicate CountedWithin(lookup: Coin -> Facts, visits: seq<Coin>, counted: int) {
    && Total(FactsOf(lookup, set c | c in visits), LossOf) <= counted
    && counted <= Sum(visits, VisitLoss(lookup))
  }

  lemma {:induction false} NothingCounted(lookup: Coin -> Facts)
    ensures CountedWithin(lookup, [], 0)
  {
    assert FactsOf(lookup, set c | c in []) == map[];
  }

  lemma {:induction false} OneMoreVisit(lookup: Coin -> Facts, visits: seq<Coin>, c: Coin, counted: int, more: int)
    requires CountedWithin(lookup, visits, counted)
    requires more == LossOf(lookup(c)) || (more == 0 && c in visits)
    ensures CountedWithin(lookup, visits + [c], counted + more)
  {
    var met := set x | x in visits;
    TotalUpdate(FactsOf(lookup, met), c, lookup(c), LossOf);
    assert (set x | x in visits + [c]) == met + {c};
    assert FactsOf(lookup, met)[c := lookup(c)] == FactsOf(lookup, met + {c});
    assert FactsOf(lookup, set x | x in visits + [c]) == FactsOf(lookup, met + {c});
    assert At(FactsOf(lookup, met), c, LossOf) == if c in met then LossOf(lookup(c)) else 0;
    SumSnoc(visits, c, VisitLoss(lookup));
  }

  datatype Slot = Slot(coin: Coin, history: seq<Tx>)

  /**
   * Checks coins, remembering recent ones in a direct-mapped cache: each coin has one slot,
   * and a newcomer evicts whoever is there.
   */
  class Checker {
    const size: nat
    const index: Coin -> nat
    const lookup: Coin -> Facts
    var slots: array<Slot>
    var deltaMinus: nat
    var reported: set<Coin>
    ghost var seen: set<Coin>

    /** Whatever is in a slot belongs there and has been checked during this run. */
    ghost predicate Valid()
      reads this, slots
    {
      && slots.Length == size
      && (forall c :: index(c) < size)
      && (forall i | 0 <= i < size && slots[i].history != [] ::
            slots[i].coin in seen && slots[i].history == lookup(slots[i].coin).history)
      && reported == set c | c in seen && Overspent(lookup(c))
    }

    constructor (size: nat, index: Coin -> nat, lookup: Coin -> Facts)
      requires forall c :: index(c) < size
      ensures Valid() && fresh(slots) && seen == {} && deltaMinus == 0
      ensures this.size == size && this.index == index && this.lookup == lookup
    {
      this.size, this.index, this.lookup := size, index, lookup;
      slots := new Slot[size](_ => Slot(0, []));
      deltaMinus, reported, seen := 0, {}, {};
    }

    /** The cached history of a coin, or nothing. */
    function Cached(c: Coin): seq<Tx>
      requires Valid()
      reads this, slots
    {
      if slots[index(c)].coin == c then slots[index(c)].history else []
    }

    /** Check a coin unless the cache shows that it was checked before. */
    method Check(c: Coin)
      requires Valid()
      modifies this`deltaMinus, this`reported, this`seen, slots
      ensures Valid() && seen == old(seen) + {c}
      ensures deltaMinus == old(deltaMinus) + if old(Cached(c)) == [] then LossOf(lookup(c)) else 0
    {
      var cached := slots[index(c)];
      if cached.coin == c && cached.history != [] {
        return;
      }
      seen := seen + {c};
      var facts := lookup(c);
      if facts.history == [] {
        return;
      }
      var excess := CheckCoinHistory(facts.history, facts.value);
      if excess > 0 {
        deltaMinus := deltaMinus + excess;
        reported := reported + {c};
      }
      slots[index(c)] := Slot(c, facts.history);
    }

    /**
     * Under any collisions and evictions, a run reports exactly the overspent coins among
     * those it meets: the cache loses entries, never findings.  Only the multiplicity is
     * left open: the losses are counted at least once per coin and at most once per visit.
     */
    method CheckAll(coins: seq<Coin>)
      requires Valid() && seen == {} && deltaMinus == 0
      modifies this`deltaMinus, this`reported, this`seen, slots
      ensures Valid()
      ensures reported == set c | c in coins && Overspent(lookup(c))
      ensures CountedWithin(lookup, coins, deltaMinus)
    {
      NothingCounted(lookup);
      assert coins[..0] == [];
      for i := 0 to |coins|
        invariant Valid() && slots == old(slots)
        invariant forall c :: c in seen <==> c in coins[..i]
        invariant CountedWithin(lookup, coins[..i], deltaMinus)
      {
        ghost var before := deltaMinus;
        assert coins[i] !in seen ==> Cached(coins[i]) == [];
        Check(coins[i]);
        assert coins[..i + 1] == coins[..i] + [coins[i]];
        OneMoreVisit(lookup, coins[..i], coins[i], before, deltaMinus - before);
      }
      assert coins[..|coins|] == coins;
    }
  }
}
