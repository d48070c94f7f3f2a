/** The reserve auditor's state and callbacks. */
module ReserveAuditor {
  import opened Sums
  import opened Reserves
  import opened ReserveRuns

  /** What is left in a reserve. */
  function LeftOf(s: Summary): nat { Max0(s.totalIn + s.previous - s.totalOut) }

  /** What the exchange shows for a reserve; one it does not know is not compared. */
  function ShownBy(exchange: map<Reserve, nat>, found: map<Reserve, Summary>): Shown {
    (r: Reserve) => if r in exchange then exchange[r] else if r in found then LeftOf(found[r]) else 0
  }

  lemma {:induction false} SettleOneMore(
    b: Books, found: map<Reserve, Summary>, order: seq<Reserve>, r: Reserve, shown: Shown)
    requires r in found && forall q | q in order :: q in found
    ensures SettleAll(b, found, order + [r], shown) == Settle(SettleAll(b, found, order, shown), r, found[r], shown(r))
  {
    assert (order + [r])[..|order|] == order;
  }

  /**
   * What becomes of a run.  If the exchange does not know some reserve, the run ends with the
   * status of its last query: one closure read counts as success, and then the remembered reserves
   * are committed without totals and progress.
   */
  datatype Fate = Complete | RolledBack | HalfCommitted

  function FateOf(allKnown: bool, closuresRead: int): Fate {
    if allKnown then Complete else if closuresRead == 1 then HalfCommitted else RolledBack
  }

  /** Each table holds rows of its own kind. */
  predicate WellTyped(log: Log) {
    && (forall row | row in log.incoming :: row.Incoming?)
    && (forall row | row in log.withdrawals :: row.Withdraw?)
    && (forall row | row in log.recoups :: row.Recoup?)
    && (forall row | row in log.closes :: row.Close?)
  }

  lemma {:induction false} SliceToEnd(log: Log, c: Cut)
    requires Fits(log, c)
    ensures [] + log.incoming[c.incoming..] + log.withdrawals[c.withdrawals..] + log.recoups[c.recoups..]
      + log.closes[c.closes..]
      == Slice(log, c, Cut(|log.incoming|, |log.withdrawals|, |log.recoups|, |log.closes|))
  {
    var d := Cut(|log.incoming|, |log.withdrawals|, |log.recoups|, |log.closes|);
    assert log.incoming[c.incoming..d.incoming] == log.incoming[c.incoming..];
    assert log.withdrawals[c.withdrawals..d.withdrawals] == log.withdrawals[c.withdrawals..];
    assert log.recoups[c.recoups..d.recoups] == log.recoups[c.recoups..];
    assert log.closes[c.closes..d.closes] == log.closes[c.closes..];
    assert [] + log.incoming[c.incoming..] == log.incoming[c.incoming..];
  }

  lemma {:induction false} GatherOneMore(m: Remembered, done: seq<Row>, rows: seq<Row>, i: nat)
    requires i < |rows|
    ensures GatherAll(m, done + rows[..i + 1]) == Gather(m, GatherAll(m, done + rows[..i]), rows[i])
  {
    assert (done + rows[..i + 1])[..|done| + i] == done + rows[..i];
  }

  class Auditor {
    var remembered: Remembered
    var escrow: nat
    var feeIncome: nat
    var cut: Cut
    var found: map<Reserve, Summary>
    var lost: nat
    ghost var clamped: nat
    var plus: nat
    var minus: nat
    var badSignatureLoss: nat
    var irregularRecoups: nat
    var feePlus: nat
    var feeMinus: nat

    /** An auditor resuming from what is stored. */
    constructor (a: Stored)
      ensures Snapshot() == a && found == map[] && badSignatureLoss == irregularRecoups == feePlus == feeMinus == 0
    {
      remembered, escrow, feeIncome, cut := a.books.remembered, a.books.escrow, a.books.feeIncome, a.cut;
      lost, plus, minus := a.books.lost, a.books.plus, a.books.minus;
      clamped := a.books.clamped;
      found, badSignatureLoss, irregularRecoups, feePlus, feeMinus := map[], 0, 0, 0, 0;
    }

    ghost function BooksNow(): Books
      reads this
    {
      Books(remembered, escrow, feeIncome, lost, clamped, plus, minus)
    }

    ghost function Snapshot(): Stored
      reads this
    {
      Stored(BooksNow(), cut)
    }

    /** The summary of one reserve has grown by these sums; it may have been loaded, and no other has changed. */
    ghost predicate Grown(
      before: map<Reserve, Summary>, after: map<Reserve, Summary>, r: Reserve, came: nat, went: nat, fee: nat)
      reads this
    {
      && after.Keys == before.Keys + {r} && (forall q | q in before && q != r :: after[q] == before[q])
      && var s := if r in before then before[r]
                  else if r in remembered then Summary(0, 0, 0, remembered[r].balance, remembered[r].fees)
                  else Summary(0, 0, 0, 0, 0);
         after[r] == Summary(s.totalIn + came, s.totalOut + went, s.totalFee + fee, s.previous, s.feesBefore)
    }

    /** The running summary of a reserve, loaded from the auditor database on first contact. */
    method Load(r: Reserve) returns (s: Summary)
      ensures s == Opened(remembered, found, r)
    {
      if r in found {
        s := found[r];
      } else if r in remembered {
        s := Summary(0, 0, 0, remembered[r].balance, remembered[r].fees);
      } else {
        s := Summary(0, 0, 0, 0, 0);
      }
    }

    method HandleReserveIn(row: Row)
      requires row.Incoming?
      modifies this`found, this`cut
      ensures found == Gather(remembered, old(found), row)
      ensures Grown(old(found), found, row.reserve, row.amount, 0, 0)
      ensures cut == old(cut).(incoming := old(cut).incoming + 1)
    {
      cut := cut.(incoming := cut.incoming + 1);
      var s := Load(row.reserve);
      found := found[row.reserve := s.(totalIn := s.totalIn + row.amount)];
    }

    method HandleReserveOut(row: Row)
      requires row.Withdraw?
      modifies this`found, this`cut, this`badSignatureLoss
      ensures found == Gather(remembered, old(found), row)
      ensures if row.known && row.validSignature then Grown(old(found), found, row.reserve, 0, row.amount, row.fee)
              else found == old(found)
      ensures cut == old(cut).(withdrawals := old(cut).withdrawals + 1)
      ensures badSignatureLoss == old(badSignatureLoss) + if row.known && !row.validSignature then row.amount else 0
    {
      cut := cut.(withdrawals := cut.withdrawals + 1);
      if !row.known {
        return;
      }
      if !row.validSignature {
        badSignatureLoss := badSignatureLoss + row.amount;
        return;
      }
      var s := Load(row.reserve);
      found := found[row.reserve := s.(totalOut := s.totalOut + row.amount, totalFee := s.totalFee + row.fee)];
    }

    /** Recoups count even when something is wrong with them; two bad signatures are two losses. */
    method HandleRecoup(row: Row)
      requires row.Recoup?
      modifies this`found, this`cut, this`badSignatureLoss, this`irregularRecoups
      ensures found == Gather(remembered, old(found), row)
      ensures Grown(old(found), found, row.reserve, row.amount, 0, 0)
      ensures cut == old(cut).(recoups := old(cut).recoups + 1)
      ensures badSignatureLoss == old(badSignatureLoss) + (if row.validSignature then 0 else row.amount)
        + (if row.revocation.BadMasterSignature? then row.amount else 0)
      ensures irregularRecoups == old(irregularRecoups) + if row.revocation.NotRevoked? then row.amount else 0
    {
      cut := cut.(recoups := cut.recoups + 1);
      if !row.validSignature {
        badSignatureLoss := badSignatureLoss + row.amount;
      }
      match row.revocation {
        case NotRevoked => irregularRecoups := irregularRecoups + row.amount;
        case BadMasterSignature => badSignatureLoss := badSignatureLoss + row.amount;
        case Revoked =>
      }
      var s := Load(row.reserve);
      found := found[row.reserve := s.(totalIn := s.totalIn + row.amount)];
    }

    /** The fee is compared with the published one only if the run has met the reserve before. */
    method HandleReserveClosed(row: Row)
      requires row.Close?
      modifies this`found, this`cut, this`feePlus, this`feeMinus
      ensures found == Gather(remembered, old(found), row)
      ensures Grown(old(found), found, row.reserve, 0, row.amount, row.fee)
      ensures cut == old(cut).(closes := old(cut).closes + 1)
      ensures var difference := if row.reserve in old(found) && row.due.Published? then row.fee - row.due.fee else 0;
        feePlus == old(feePlus) + Max0(difference) && feeMinus == old(feeMinus) + Max0(-difference)
    {
      cut := cut.(closes := cut.closes + 1);
      var s := Load(row.reserve);
      if row.reserve in found && row.due.Published? && row.due.fee != row.fee {
        if row.fee > row.due.fee {
          feePlus := feePlus + (row.fee - row.due.fee);
        } else {
          feeMinus := feeMinus + (row.due.fee - row.fee);
        }
      }
      found := found[row.reserve := s.(totalOut := s.totalOut + row.amount, totalFee := s.totalFee + row.fee)];
    }

    /** Compare with the balance that the exchange shows. */
    method CompareBalance(left: nat, shown: nat)
      modifies this`plus, this`minus
      ensures plus == old(plus) + Max0(left - shown) && minus == old(minus) + Max0(shown - left)
    {
      if left != shown {
        if left > shown {
          plus := plus + (left - shown);
        } else {
          minus := minus + (shown - left);
        }
      }
    }

    /** Move the reserve's turnover through the escrow, which stops at zero. */
    method MoveEscrow(s: Summary)
      modifies this`escrow, this`clamped
      ensures escrow == Max0(old(escrow) + s.totalIn - s.totalOut)
      ensures clamped == old(clamped) + Max0(s.totalOut - s.totalIn - old(escrow))
    {
      escrow := escrow + s.totalIn;
      if escrow < s.totalOut {
        clamped := clamped + (s.totalOut - escrow);
        escrow := 0;
      } else {
        escrow := escrow - s.totalOut;
      }
    }

    method VerifyReserveBalance(r: Reserve, exchange: map<Reserve, nat>) returns (ok: bool)
      requires r in found
      modifies this
      ensures found == old(found) - {r} && cut == old(cut)
      ensures ok == (r in exchange)
      ensures !ok ==> plus == old(plus) && minus == old(minus)
      ensures BooksNow() == Settle(old(BooksNow()), r, old(found[r]), if ok then exchange[r] else LeftOf(old(found[r])))
    {
      var s := found[r];
      var balance := s.totalIn + s.previous;
      var left := 0;
      if balance < s.totalOut {
        lost := lost + (s.totalOut - balance);
      } else {
        left := balance - s.totalOut;
      }
      ok := r in exchange;
      if ok {
        CompareBalance(left, exchange[r]);
      }
      feeIncome := feeIncome + s.totalFee;
      MoveEscrow(s);
      remembered := if balance == 0 then remembered - {r} else remembered[r := Entry(left, s.feesBefore + s.totalFee)];
      found := found - {r};
    }

    /** One more reserve after those in `order`. */
    method VerifyNext(
      r: Reserve, exchange: map<Reserve, nat>,
      ghost before: Books, ghost all: map<Reserve, Summary>, ghost order: seq<Reserve>, ghost shown: Shown)
      returns (ok: bool)
      requires r in found && r in all && found[r] == all[r] && forall q | q in order :: q in all
      requires shown(r) == if r in exchange then exchange[r] else LeftOf(all[r])
      requires BooksNow() == SettleAll(before, all, order, shown)
      modifies this
      ensures found == old(found) - {r} && cut == old(cut)
      ensures ok == (r in exchange)
      ensures BooksNow() == SettleAll(before, all, order + [r], shown)
    {
      SettleOneMore(before, all, order, r, shown);
      ok := VerifyReserveBalance(r, exchange);
    }

    /** Drain the summaries in whatever order the hash map hands them out. */
    method VerifyAll(exchange: map<Reserve, nat>, ghost shown: Shown) returns (ok: bool, ghost order: seq<Reserve>)
      requires forall r | r in found :: shown(r) == if r in exchange then exchange[r] else LeftOf(found[r])
      modifies this
      ensures Enumerates(order, old(found)) && found == map[] && cut == old(cut)
      ensures ok <==> forall r | r in order :: r in exchange
      ensures BooksNow() == SettleAll(old(BooksNow()), old(found), order, shown)
    {
      ok, order := true, [];
      ghost var all, before := found, BooksNow();
      while found != map[]
        invariant Unique(order) && forall r | r in order :: r in all && r !in found
        invariant forall r | r in all :: r in found || r in order
        invariant forall r | r in found :: r in all && found[r] == all[r]
        invariant cut == old(cut)
        invariant ok <==> forall r | r in order :: r in exchange
        invariant BooksNow() == SettleAll(before, all, order, shown)
        decreases |found|
      {
        var r :| r in found;
        var fine := VerifyNext(r, exchange, before, all, order, shown);
        ok := ok && fine;
        order := order + [r];
      }
    }

    method ReadIncoming(rows: seq<Row>, ghost done: seq<Row>)
      requires forall row | row in rows :: row.Incoming?
      requires found == GatherAll(remembered, done)
      modifies this`found, this`cut
      ensures found == GatherAll(remembered, done + rows)
      ensures cut == old(cut).(incoming := old(cut).incoming + |rows|)
    {
      assert done + rows[..0] == done;
      for i := 0 to |rows|
        invariant cut == old(cut).(incoming := old(cut).incoming + i)
        invariant found == GatherAll(remembered, done + rows[..i])
      {
        HandleReserveIn(rows[i]);
        GatherOneMore(remembered, done, rows, i);
      }
      assert rows[..|rows|] == rows;
    }

    method ReadWithdrawals(rows: seq<Row>, ghost done: seq<Row>)
      requires forall row | row in rows :: row.Withdraw?
      requires found == GatherAll(remembered, done)
      modifies this`found, this`cut, this`badSignatureLoss
      ensures found == GatherAll(remembered, done + rows)
      ensures cut == old(cut).(withdrawals := old(cut).withdrawals + |rows|)
    {
      assert done + rows[..0] == done;
      for i := 0 to |rows|
        invariant cut == old(cut).(withdrawals := old(cut).withdrawals + i)
        invariant found == GatherAll(remembered, done + rows[..i])
      {
        HandleReserveOut(rows[i]);
        GatherOneMore(remembered, done, rows, i);
      }
      assert rows[..|rows|] == rows;
    }

    method ReadRecoups(rows: seq<Row>, ghost done: seq<Row>)
      requires forall row | row in rows :: row.Recoup?
      requires found == GatherAll(remembered, done)
      modifies this`found, this`cut, this`badSignatureLoss, this`irregularRecoups
      ensures found == GatherAll(remembered, done + rows)
      ensures cut == old(cut).(recoups := old(cut).recoups + |rows|)
    {
      assert done + rows[..0] == done;
      for i := 0 to |rows|
        invariant cut == old(cut).(recoups := old(cut).recoups + i)
        invariant found == GatherAll(remembered, done + rows[..i])
      {
        HandleRecoup(rows[i]);
        GatherOneMore(remembered, done, rows, i);
      }
      assert rows[..|rows|] == rows;
    }

    method ReadCloses(rows: seq<Row>, ghost done: seq<Row>)
      requires forall row | row in rows :: row.Close?
      requires found == GatherAll(remembered, done)
      modifies this`found, this`cut, this`feePlus, this`feeMinus
      ensures found == GatherAll(remembered, done + rows)
      ensures cut == old(cut).(closes := old(cut).closes + |rows|)
    {
      assert done + rows[..0] == done;
      for i := 0 to |rows|
        invariant cut == old(cut).(closes := old(cut).closes + i)
        invariant found == GatherAll(remembered, done + rows[..i])
      {
        HandleReserveClosed(rows[i]);
        GatherOneMore(remembered, done, rows, i);
      }
      assert rows[..|rows|] == rows;
    }

    /** Read the rows of the four tables that have not been audited yet. */
    method ReadTables(log: Log)
      requires found == map[] && Fits(log, cut) && WellTyped(log)
      modifies this`found, this`cut, this`badSignatureLoss, this`irregularRecoups, this`feePlus, this`feeMinus
      ensures cut == Cut(|log.incoming|, |log.withdrawals|, |log.recoups|, |log.closes|)
      ensures found == GatherAll(remembered, Slice(log, old(cut), cut))
    {
      ghost var was := cut;
      ReadIncoming(log.incoming[cut.incoming..], []);
      ghost var done := [] + log.incoming[was.incoming..];
      ReadWithdrawals(log.withdrawals[cut.withdrawals..], done);
      done := done + log.withdrawals[was.withdrawals..];
      ReadRecoups(log.recoups[cut.recoups..], done);
      done := done + log.recoups[was.recoups..];
      ReadCloses(log.closes[cut.closes..], done);
      SliceToEnd(log, was);
    }

    /** A whole run: the new state is that of the specification, for some order of the reserves. */
    method AnalyzeReserves(log: Log, exchange: map<Reserve, nat>) returns (fate: Fate, ghost run: Attempt)
      requires found == map[] && Fits(log, cut) && WellTyped(log)
      modifies this
      ensures Possible(log, run, old(Snapshot())) && run.commits
      ensures run.seen == Cut(|log.incoming|, |log.withdrawals|, |log.recoups|, |log.closes|)
      ensures Snapshot() == RunOnce(log, run, old(Snapshot())) && found == map[]
      ensures fate == FateOf(forall r | r in run.order :: r in exchange, |log.closes| - old(cut).closes)
      ensures fate.Complete? <==> forall r | r in run.order :: r in exchange
      ensures fate.HalfCommitted? <==> !fate.Complete? && |log.closes| - old(cut).closes == 1
    {
      var closuresRead := |log.closes| - cut.closes;
      ReadTables(log);
      var known: bool;
      ghost var order;
      ghost var gathered := found;
      known, order := VerifyAll(exchange, ShownBy(exchange, gathered));
      run := Attempt(cut, order, ShownBy(exchange, gathered), true);
      fate := FateOf(known, closuresRead);
    }
  }
}
