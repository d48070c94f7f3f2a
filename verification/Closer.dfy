/** The closer: expired reserves are emptied into a closing record and, if anything is left, a wire transfer. */
module Closer {
  import opened Sums
  import opened Text
  import A = Amounts
  import W = Wire

  type Reserve = nat

  datatype Account = Account(balance: nat, expires: nat, payto: Text)

  /** A row of the table of closed reserves; the reserve key doubles as transfer subject. */
  datatype Closing = Closing(reserve: Reserve, payto: Text, amountWithFee: nat, fee: nat)

  /** A prepared wire transfer. */
  datatype Prepared = Prepared(wtid: nat, payto: Text, amount: nat)

  datatype Db = Db(reserves: map<Reserve, Account>, closings: seq<Closing>, prepared: seq<Prepared>)

  /** The closing fee for an account at a time, if it is configured. */
  datatype Fee = NotConfigured | Fee(amount: nat)
  type Fees = (Text, nat) -> Fee

  // ----- one closure -----

  /** A fee that leaves nothing is cut to what is there. */
  function RecordedFee(left: nat, fee: nat): (r: nat)
    ensures r <= left
  {
    if fee >= left then left else fee
  }

  function Wired(left: nat, fee: nat, unit: A.Amount): nat { A.Rounded(left - RecordedFee(left, fee), unit) }

  /** What rounding leaves behind. */
  function Dust(left: nat, fee: nat, unit: A.Amount): int { left - RecordedFee(left, fee) - Wired(left, fee, unit) }

  predicate UsableUnit(unit: A.Amount) { unit.value == 0 || unit.fraction == 0 }

  function Close(db: Db, r: Reserve, fee: nat, unit: A.Amount): Db
    requires r in db.reserves
  {
    var a := db.reserves[r];
    var wired := Wired(a.balance, fee, unit);
    Db(db.reserves[r := a.(balance := 0)],
       db.closings + [Closing(r, a.payto, a.balance, RecordedFee(a.balance, fee))],
       if wired > 0 then db.prepared + [Prepared(r, a.payto, wired)] else db.prepared)
  }

  /** Every closure splits what was left into the recorded fee, the transfer, and less than one unit of dust. */
  lemma {:induction false} ClosureSplits(left: nat, fee: nat, unit: A.Amount)
    ensures left == RecordedFee(left, fee) + Wired(left, fee, unit) + Dust(left, fee, unit)
    ensures 0 <= Dust(left, fee, unit)
    ensures Dust(left, fee, unit) < A.Units(unit) || Dust(left, fee, unit) == 0
    ensures Wired(left, fee, unit) == 0 <==> Dust(left, fee, unit) == left - RecordedFee(left, fee)
    ensures left <= fee ==> RecordedFee(left, fee) == left && Wired(left, fee, unit) == 0
    ensures left > fee ==> RecordedFee(left, fee) == fee && Wired(left, fee, unit) == A.Rounded(left - fee, unit)
  {
    A.RoundedDust(left - RecordedFee(left, fee), unit);
  }

  /** The closure as the wire auditor reads it, and the debit that the bank makes of the transfer. */
  function ClosureRow(id: nat, c: Closing): W.Closure { W.Closure(id, c.reserve, c.payto, c.amountWithFee, c.fee) }

  function DebitFor(p: Prepared): W.Debit { W.Debit(p.wtid, p.payto, p.amount) }

  /** The wire auditor recognizes the closer's transfer exactly when rounding left no dust. */
  lemma {:induction false} AuditorMatchesExactly(db: Db, r: Reserve, fee: nat, unit: A.Amount, id: nat)
    requires r in db.reserves && Wired(db.reserves[r].balance, fee, unit) > 0
    ensures var after := Close(db, r, fee, unit);
      var c := ClosureRow(id, after.closings[|db.closings|]);
      && |after.prepared| == |db.prepared| + 1
      && W.Accepted(c)
      && (W.Matches(W.PendingOf(c), DebitFor(after.prepared[|db.prepared|]))
          <==> Dust(db.reserves[r].balance, fee, unit) == 0)
  {
    ClosureSplits(db.reserves[r].balance, fee, unit);
  }

  /** Without a transfer, what the auditor expects is the dust. */
  lemma {:induction false} NoTransferExpectsDust(db: Db, r: Reserve, fee: nat, unit: A.Amount, id: nat)
    requires r in db.reserves && Wired(db.reserves[r].balance, fee, unit) == 0
    ensures var after := Close(db, r, fee, unit);
      var c := ClosureRow(id, after.closings[|db.closings|]);
      && after.prepared == db.prepared
      && W.Accepted(c) && W.PendingOf(c).amount == Dust(db.reserves[r].balance, fee, unit)
  {
    ClosureSplits(db.reserves[r].balance, fee, unit);
  }

  // ----- runs -----

  predicate Expired(db: Db, r: Reserve, now: nat) {
    r in db.reserves && db.reserves[r].balance > 0 && db.reserves[r].expires <= now
  }

  /** The reserve that the database hands out: of those expired, one that expired first. */
  ghost predicate Picked(db: Db, r: Reserve, now: nat) {
    Expired(db, r, now) &&
    forall q | q in db.reserves && Expired(db, q, now) :: db.reserves[r].expires <= db.reserves[q].expires
  }

  datatype Status = Idle | Progress | Retry | Failed

  /**
   * Where the database may fail: inserting the closure, inserting the transfer, or committing.  A
   * callback that reports anything but one result, be it a soft error or no result, makes the query
   * that called it a hard error, so the first two both end the closer.
   */
  datatype Fault = None | OnInsert | OnPrepare | OnCommit

  /** Whether a run that picked a reserve ends with its transaction committed. */
  predicate Commits(db: Db, r: Reserve, fees: Fees, unit: A.Amount, fault: Fault)
    requires r in db.reserves
  {
    var a := db.reserves[r];
    var fee := fees(a.payto, a.expires);
    && fee.Fee? && UsableUnit(unit)
    && fault != OnInsert && fault != OnCommit
    && (Wired(a.balance, fee.amount, unit) > 0 ==> fault != OnPrepare)
  }

  class Exchange {
    var reserves: map<Reserve, Account>
    var closings: seq<Closing>
    var prepared: seq<Prepared>

    constructor (db: Db)
      ensures Stored() == db
    {
      reserves, closings, prepared := db.reserves, db.closings, db.prepared;
    }

    function Stored(): Db
      reads this
    {
      Db(reserves, closings, prepared)
    }

    /** Close one expired reserve, inside a transaction. */
    method ExpiredReserve(r: Reserve, fees: Fees, unit: A.Amount, fault: Fault) returns (ok: bool)
      requires r in reserves
      modifies this
      ensures ok ==> fees(old(reserves)[r].payto, old(reserves)[r].expires).Fee?
      ensures ok ==>
        Stored() == Close(old(Stored()), r, fees(old(reserves)[r].payto, old(reserves)[r].expires).amount, unit)
      ensures (ok && fault != OnCommit) == Commits(old(Stored()), r, fees, unit, fault)
      ensures ok ==>
        var a := old(reserves)[r];
        var fee := fees(a.payto, a.expires).amount;
        var wired := if a.balance > fee then A.Rounded(a.balance - fee, unit) else 0;
        && reserves == old(reserves)[r := Account(0, a.expires, a.payto)]
        && closings == old(closings) + [Closing(r, a.payto, a.balance, if a.balance > fee then fee else a.balance)]
        && prepared == old(prepared) + (if wired > 0 then [Prepared(r, a.payto, wired)] else [])
    {
      var a := reserves[r];
      var fee := fees(a.payto, a.expires);
      if fee.NotConfigured? {
        return false;
      }
      var closingFee, wired := fee.amount, 0;
      if a.balance <= closingFee {
        closingFee := a.balance;
      } else {
        wired := a.balance - closingFee;
      }
      if unit.value != 0 && unit.fraction != 0 {
        return false;
      }
      wired := A.Rounded(wired, unit);
      if fault == OnInsert {
        return false;
      }
      closings := closings + [Closing(r, a.payto, a.balance, closingFee)];
      reserves := reserves[r := a.(balance := 0)];
      if wired > 0 {
        if fault == OnPrepare {
          return false;
        }
        prepared := prepared + [Prepared(r, a.payto, wired)];
      }
      ok := true;
    }

    /** One round of the scheduler: all of a closure, or nothing. */
    method RunReserveClosures(now: nat, fees: Fees, unit: A.Amount, fault: Fault)
      returns (status: Status, ghost r: Reserve)
      modifies this
      ensures status == Idle ==> Stored() == old(Stored()) && forall q :: !Expired(old(Stored()), q, now)
      ensures status == Idle ==>
        forall q | q in reserves :: reserves[q].balance == 0 || reserves[q].expires > now
      ensures status != Idle ==> Picked(old(Stored()), r, now)
      ensures status != Idle ==>
        && r in old(reserves) && old(reserves)[r].balance > 0 && old(reserves)[r].expires <= now
        && forall q | q in old(reserves) && old(reserves)[q].balance > 0 && old(reserves)[q].expires <= now ::
             old(reserves)[r].expires <= old(reserves)[q].expires
      ensures status == Progress <==>
        && status != Idle && fault != OnInsert && fault != OnCommit
        && (unit.value == 0 || unit.fraction == 0)
        && (var a := old(reserves)[r];
            var fee := fees(a.payto, a.expires);
            && fee.Fee?
            && (fault == OnPrepare ==> a.balance <= fee.amount || A.Rounded(a.balance - fee.amount, unit) == 0))
      ensures status == Progress ==>
        && Commits(old(Stored()), r, fees, unit, fault)
        && Stored() == Close(old(Stored()), r, fees(old(reserves)[r].payto, old(reserves)[r].expires).amount, unit)
      ensures status != Progress ==> Stored() == old(Stored())
      ensures status in {Retry, Failed} ==> !Commits(old(Stored()), r, fees, unit, fault)
    {
      var before, oldClosings, oldPrepared := reserves, closings, prepared;
      var expired := set q | q in reserves && reserves[q].balance > 0 && reserves[q].expires <= now;
      if expired == {} {
        assert forall q :: Expired(Stored(), q, now) ==> q in expired;
        assert forall q | q in reserves && reserves[q].balance > 0 && reserves[q].expires <= now :: q in expired;
        return Idle, 0;
      }
      EarliestExists(reserves, expired);
      var first :| first in expired && Earliest(reserves, expired, first);
      r := first;
      var ok := ExpiredReserve(first, fees, unit, fault);
      if !ok || fault == OnCommit {
        reserves, closings, prepared := before, oldClosings, oldPrepared;
        return if ok then Retry else Failed, r;
      }
      status := Progress;
    }
  }

  predicate Earliest(reserves: map<Reserve, Account>, expired: set<Reserve>, r: Reserve)
    requires expired <= reserves.Keys
  {
    r in expired && forall q | q in expired :: reserves[r].expires <= reserves[q].expires
  }

  lemma {:induction false} EarliestExists(reserves: map<Reserve, Account>, expired: set<Reserve>)
    requires expired != {} && expired <= reserves.Keys
    ensures exists r | r in expired :: Earliest(reserves, expired, r)
    decreases |expired|
  {
    var r :| r in expired;
    var rest := expired - {r};
    if rest == {} {
      assert forall q | q in expired :: q == r || q in rest;
      assert Earliest(reserves, expired, r);
    } else {
      EarliestExists(reserves, rest);
      var s :| s in rest && Earliest(reserves, rest, s);
      assert Earliest(reserves, expired, if reserves[r].expires <= reserves[s].expires then r else s);
    }
  }

  // ----- conservation and progress over any history -----

  /**
   * What happens to the database: a round of the closer, in which the database may fail and any of
   * the reserves that expired first may be picked, or money arriving in a reserve.
   */
  datatype Event =
    | Round(now: nat, fees: Fees, unit: A.Amount, fault: Fault, pick: Reserve)
    | Credit(reserve: Reserve, payto: Text, amount: nat, expires: nat)

  ghost predicate CanPick(db: Db, x: Event)
    requires x.Round?
  {
    (exists q :: Expired(db, q, x.now)) ==> Picked(db, x.pick, x.now)
  }

  /** The round closes the reserve it picks. */
  predicate Closes(db: Db, x: Event) {
    x.Round? && Expired(db, x.pick, x.now) && Commits(db, x.pick, x.fees, x.unit, x.fault)
  }

  function FeeFor(db: Db, x: Event): nat
    requires Closes(db, x)
  {
    x.fees(db.reserves[x.pick].payto, db.reserves[x.pick].expires).amount
  }

  function Credited(db: Db, x: Event): Account
    requires x.Credit?
  {
    if x.reserve !in db.reserves then Account(x.amount, x.expires, x.payto)
    else
      var a := db.reserves[x.reserve];
      a.(balance := a.balance + x.amount, expires := if x.expires > a.expires then x.expires else a.expires)
  }

  function AfterEvent(db: Db, x: Event): Db {
    if x.Credit? then db.(reserves := db.reserves[x.reserve := Credited(db, x)])
    else if Closes(db, x) then Close(db, x.pick, FeeFor(db, x), x.unit)
    else db
  }

  function AfterEvents(db: Db, xs: seq<Event>): Db
    decreases |xs|
  {
    if xs == [] then db else AfterEvents(AfterEvent(db, xs[0]), xs[1..])
  }

  function BalanceOf(a: Account): int { a.balance }
  function FeeOf(c: Closing): int { c.fee }
  function AmountOf(p: Prepared): int { p.amount }
  function CreditOf(x: Event): int { if x.Credit? then x.amount else 0 }

  /** All money that the exchange holds for, or has taken from, reserves: balances, fees and transfers. */
  ghost function Accounted(db: Db): int {
    Total(db.reserves, BalanceOf) + Sum(db.closings, FeeOf) + Sum(db.prepared, AmountOf)
  }

  /** The dust of a round, if it closes a reserve. */
  function DustOf(db: Db, x: Event): int {
    if Closes(db, x) then Dust(db.reserves[x.pick].balance, FeeFor(db, x), x.unit) else 0
  }

  function TotalDust(db: Db, xs: seq<Event>): int
    decreases |xs|
  {
    if xs == [] then 0 else DustOf(db, xs[0]) + TotalDust(AfterEvent(db, xs[0]), xs[1..])
  }

  lemma {:induction false} CloseConserves(db: Db, r: Reserve, fee: nat, unit: A.Amount)
    requires r in db.reserves
    ensures Accounted(Close(db, r, fee, unit)) + Dust(db.reserves[r].balance, fee, unit) == Accounted(db)
  {
    var a := db.reserves[r];
    var wired := Wired(a.balance, fee, unit);
    TotalUpdate(db.reserves, r, a.(balance := 0), BalanceOf);
    SumSnoc(db.closings, Closing(r, a.payto, a.balance, RecordedFee(a.balance, fee)), FeeOf);
    SumSnoc(db.prepared, Prepared(r, a.payto, wired), AmountOf);
  }

  lemma {:induction false} EventConserves(db: Db, x: Event)
    ensures Accounted(AfterEvent(db, x)) + DustOf(db, x) == Accounted(db) + CreditOf(x)
  {
    if x.Credit? {
      TotalUpdate(db.reserves, x.reserve, Credited(db, x), BalanceOf);
    } else if Closes(db, x) {
      CloseConserves(db, x.pick, FeeFor(db, x), x.unit);
    }
  }

  /**
   * Money is only ever moved: balances, recorded fees, prepared transfers and dust add up to what
   * was there and what came in, whatever fails.
   */
  lemma {:induction false} EventsConserve(db: Db, xs: seq<Event>)
    ensures Accounted(AfterEvents(db, xs)) + TotalDust(db, xs) == Accounted(db) + Sum(xs, CreditOf)
    decreases |xs|
  {
    if xs != [] {
      EventConserves(db, xs[0]);
      EventsConserve(AfterEvent(db, xs[0]), xs[1..]);
    }
  }

  ghost function ExpiredSet(db: Db, now: nat): set<Reserve> { set r | r in db.reserves && Expired(db, r, now) }

  /** Only rounds at this time, and every one commits: nothing fails, fees and rounding unit are configured. */
  ghost predicate AllGoWell(db: Db, xs: seq<Event>, now: nat)
    decreases |xs|
  {
    xs != [] ==>
      && xs[0].Round? && xs[0].now == now && CanPick(db, xs[0])
      && (Expired(db, xs[0].pick, now) ==> Closes(db, xs[0]))
      && AllGoWell(AfterEvent(db, xs[0]), xs[1..], now)
  }

  lemma {:induction false} RoundShrinks(db: Db, x: Event)
    requires x.Round? && CanPick(db, x) && (Expired(db, x.pick, x.now) ==> Closes(db, x))
    ensures ExpiredSet(AfterEvent(db, x), x.now) == ExpiredSet(db, x.now) - {x.pick}
    ensures ExpiredSet(db, x.now) != {} ==> x.pick in ExpiredSet(db, x.now)
  {
    if ExpiredSet(db, x.now) != {} {
      var q :| q in ExpiredSet(db, x.now);
      assert Expired(db, q, x.now);
    }
  }

  /** As many good rounds as there are expired reserves close all of them. */
  lemma {:induction false} RoundsDrain(db: Db, xs: seq<Event>, now: nat)
    requires AllGoWell(db, xs, now) && |xs| >= |ExpiredSet(db, now)|
    ensures ExpiredSet(AfterEvents(db, xs), now) == {}
    decreases |xs|
  {
    if xs != [] {
      RoundShrinks(db, xs[0]);
      RoundsDrain(AfterEvent(db, xs[0]), xs[1..], now);
    }
  }

  // ----- which closures the wire auditor can ever match -----

  /** What the auditor expects for a closure. */
  function ExpectedFor(c: Closing): nat
    requires c.fee <= c.amountWithFee
  {
    c.amountWithFee - c.fee
  }

  /** Some prepared transfer is what the auditor expects for the closure. */
  predicate EverMatched(db: Db, c: Closing)
    requires c.fee <= c.amountWithFee
  {
    exists p | p in db.prepared :: W.Matches(W.PendingOf(ClosureRow(0, c)), DebitFor(p))
  }

  lemma {:induction false} EverMatchedIsPrepared(db: Db, c: Closing)
    requires c.fee <= c.amountWithFee
    ensures EverMatched(db, c) <==> Prepared(c.reserve, c.payto, ExpectedFor(c)) in db.prepared
  {
    var p := Prepared(c.reserve, c.payto, ExpectedFor(c));
    if p in db.prepared {
      assert W.Matches(W.PendingOf(ClosureRow(0, c)), DebitFor(p));
    }
  }

  /** Some round of the history closes the reserve and wires exactly this. */
  ghost predicate Wires(db: Db, xs: seq<Event>, p: Prepared)
    decreases |xs|
  {
    xs != [] &&
      (|| (Closes(db, xs[0]) && xs[0].pick == p.wtid && db.reserves[p.wtid].payto == p.payto
           && 0 < p.amount == Wired(db.reserves[p.wtid].balance, FeeFor(db, xs[0]), xs[0].unit))
       || Wires(AfterEvent(db, xs[0]), xs[1..], p))
  }

  lemma {:induction false} PreparedExactly(db: Db, xs: seq<Event>, p: Prepared)
    ensures p in AfterEvents(db, xs).prepared <==> p in db.prepared || Wires(db, xs, p)
    decreases |xs|
  {
    if xs != [] {
      PreparedExactly(AfterEvent(db, xs[0]), xs[1..], p);
    }
  }

  /**
   * After any history, whatever the rounding units: some transfer of the closer matches a closure
   * exactly when some round closed the same reserve for the same account and wired exactly the
   * closure's amount less its fee -- be it the round that made the closure or another one.
   */
  lemma {:induction false} MatchedIfWired(db: Db, xs: seq<Event>, c: Closing)
    requires db.prepared == [] && c.fee <= c.amountWithFee
    ensures EverMatched(AfterEvents(db, xs), c) <==>
      Wires(db, xs, Prepared(c.reserve, c.payto, ExpectedFor(c)))
  {
    EverMatchedIsPrepared(AfterEvents(db, xs), c);
    PreparedExactly(db, xs, Prepared(c.reserve, c.payto, ExpectedFor(c)));
  }

  /** Transfers are rounded amounts, and every closure that rounds to something has its transfer. */
  predicate Backed(db: Db, unit: A.Amount) {
    && (forall p | p in db.prepared :: p.amount > 0 && A.Rounded(p.amount, unit) == p.amount)
    && (forall c | c in db.closings :: c.fee <= c.amountWithFee)
    && forall c | c in db.closings && A.Rounded(ExpectedFor(c), unit) > 0 ::
         Prepared(c.reserve, c.payto, A.Rounded(ExpectedFor(c), unit)) in db.prepared
  }

  lemma {:induction false} CloseKeepsBacked(db: Db, r: Reserve, fee: nat, unit: A.Amount)
    requires r in db.reserves && Backed(db, unit)
    ensures Backed(Close(db, r, fee, unit), unit)
  {
    var a, after := db.reserves[r], Close(db, r, fee, unit);
    A.RoundedTwice(a.balance - RecordedFee(a.balance, fee), unit);
    var c := Closing(r, a.payto, a.balance, RecordedFee(a.balance, fee));
    assert forall x | x in after.closings :: x in db.closings || x == c;
    assert forall p | p in db.prepared :: p in after.prepared;
    if Wired(a.balance, fee, unit) > 0 {
      var p := Prepared(r, a.payto, Wired(a.balance, fee, unit));
      assert p in after.prepared && forall x | x in after.prepared :: x in db.prepared || x == p;
    }
  }

  /** All rounds round to the same unit. */
  predicate OneUnit(xs: seq<Event>, unit: A.Amount) {
    forall i | 0 <= i < |xs| && xs[i].Round? :: xs[i].unit == unit
  }

  lemma {:induction false} EventsKeepBacked(db: Db, xs: seq<Event>, unit: A.Amount)
    requires Backed(db, unit) && OneUnit(xs, unit)
    ensures Backed(AfterEvents(db, xs), unit)
    decreases |xs|
  {
    if xs != [] {
      if Closes(db, xs[0]) {
        CloseKeepsBacked(db, xs[0].pick, FeeFor(db, xs[0]), unit);
      }
      EventsKeepBacked(AfterEvent(db, xs[0]), xs[1..], unit);
    }
  }

  /** The amount needs a transfer, and no rounding. */
  predicate Exact(c: Closing, unit: A.Amount)
    requires c.fee <= c.amountWithFee
  {
    ExpectedFor(c) > 0 && A.Rounded(ExpectedFor(c), unit) == ExpectedFor(c)
  }

  /**
   * After any history with one rounding unit, whatever fails: some transfer of the closer matches a
   * closure exactly when its amount less the fee is positive and needs no rounding.  All other
   * closures -- with dust, or with nothing left after the fee -- match none, then or later.
   */
  lemma {:induction false} EverMatchedExactly(db: Db, xs: seq<Event>, unit: A.Amount, c: Closing)
    requires db.closings == [] && db.prepared == [] && OneUnit(xs, unit)
    requires c in AfterEvents(db, xs).closings
    ensures c.fee <= c.amountWithFee
    ensures EverMatched(AfterEvents(db, xs), c) <==> Exact(c, unit)
  {
    EventsKeepBacked(db, xs, unit);
    EverMatchedIsPrepared(AfterEvents(db, xs), c);
  }

  /**
   * An audit of debits made from such transfers keeps every unmatched closure pending, and the next
   * one reads it again.
   */
  lemma {:induction false} UnmatchedStaysPending(
    db: Db, xs: seq<Event>, unit: A.Amount, c: Closing, id: nat,
    rows: seq<W.Closure>, debits: seq<W.Debit>, pending: map<nat, W.Pending>, lag: int, next: nat)
    requires db.closings == [] && db.prepared == [] && OneUnit(xs, unit)
    requires c in AfterEvents(db, xs).closings && ClosureRow(id, c) in rows
    requires forall d | d in debits :: exists p | p in AfterEvents(db, xs).prepared :: d == DebitFor(p)
    requires W.Audited(rows, debits, pending, lag, next)
    requires c.fee <= c.amountWithFee ==> !Exact(c, unit)
    ensures id in pending && next <= id
  {
    EverMatchedExactly(db, xs, unit, c);
    var row := ClosureRow(id, c);
    forall d | d in debits ensures !W.Matches(W.PendingOf(row), d) {
      var p :| p in AfterEvents(db, xs).prepared && d == DebitFor(p);
      assert !W.Matches(W.PendingOf(ClosureRow(0, c)), DebitFor(p));
    }
  }

  /**
   * A change of unit can make any closure match that has something left after its fee, whatever dust
   * it had: the same amount comes in again, and the next round closes the reserve unrounded.
   */
  lemma {:induction false} UnitChangeCanMatch(db: Db, x: Event) returns (c: Closing, xs: seq<Event>)
    requires Closes(db, x) && FeeFor(db, x) < db.reserves[x.pick].balance
    ensures AfterEvent(db, x).closings == db.closings + [c]
    ensures c.fee <= c.amountWithFee && [x] <= xs
    ensures forall y | y in xs :: y.Round? ==> y.now == x.now && y.fees == x.fees && y.pick == x.pick
    ensures EverMatched(AfterEvents(db, xs), c)
  {
    var a := db.reserves[x.pick];
    var credit := Credit(x.pick, a.payto, a.balance, a.expires);
    var again := Round(x.now, x.fees, A.Amount(0, 0), None, x.pick);
    c, xs := Closing(x.pick, a.payto, a.balance, FeeFor(db, x)), [x, credit, again];
    var closed := AfterEvent(db, x);
    var full := AfterEvent(closed, credit);
    assert full.reserves == db.reserves && Closes(full, again) && FeeFor(full, again) == FeeFor(db, x);
    assert Wired(a.balance, FeeFor(full, again), again.unit) == ExpectedFor(c);
    var p := Prepared(x.pick, a.payto, ExpectedFor(c));
    assert p in AfterEvent(full, again).prepared;
    assert xs[1..] == [credit, again] && xs[1..][1..] == [again];
    assert AfterEvents(full, [again]) == AfterEvent(full, again);
    assert AfterEvents(closed, [credit, again]) == AfterEvents(full, [again]);
    EverMatchedIsPrepared(AfterEvent(full, again), c);
  }
}
