/** What a row of each exchange table does to the denominations and the totals, in terms of the row itself. */
module CoinRows {
  import opened Sums
  import opened CoinLedger

  // ----- what a row is worth -----

  /** A melt of a known coin that was revealed, down to new coins of known denominations. */
  predicate Settles(env: Env, row: Row) {
    && row.Melt? && row.h in env.issues
    && row.newCoins != [] && forall f | f in row.newCoins :: f in env.issues
  }

  /** What a new coin adds to `h`, what it is worth, and whether it is one of `h`. */
  function WorthTo(env: Env, h: Hash): Hash -> int {
    (f: Hash) => if f == h && f in env.issues then env.issues[f].value else 0
  }

  function WorthOf(env: Env): Hash -> int { (f: Hash) => if f in env.issues then env.issues[f].value else 0 }

  function OneOf(h: Hash): Hash -> int { (f: Hash) => if f == h then 1 else 0 }

  /** What a row puts into the denomination `h`. */
  function Credited(env: Env, row: Row, h: Hash): int {
    match row
    case Withdraw(_, d) => if d == h && d in env.issues then env.issues[d].value else 0
    case Refund(_, d, a, sigOk) => if d == h && d in env.issues && sigOk then Max0(a - env.issues[d].feeRefund) else 0
    case RecoupRefresh(_, oldH, _, a, _, _) => if oldH == h && oldH in env.issues then a else 0
    case Recoup(_, _, _, _, _) => 0
    case Melt(_, _, _, _, _, newCoins) => if Settles(env, row) then Sum(newCoins, WorthTo(env, h)) else 0
    case Deposit(_, _, _, _, _, _) => 0
  }

  /** What a row takes out of it. */
  function Debited(env: Env, row: Row, h: Hash): nat {
    match row
    case Melt(_, d, a, _, _, _) => if d == h && Settles(env, row) then a else 0
    case Deposit(_, d, a, _, wireOk, sigOk) => if d == h && d in env.issues && wireOk && sigOk then a else 0
    case _ => 0
  }

  /** What a row adds to the outstanding value of `h`. */
  function RowValue(env: Env, row: Row, h: Hash): int { Credited(env, row, h) - Debited(env, row, h) }

  /** What a row recoups of `h`. */
  function Recouped(env: Env, row: Row, h: Hash): nat {
    match row
    case Recoup(_, d, a, _, sigOk) => if d == h && d in env.issues && sigOk then a else 0
    case RecoupRefresh(_, _, d, a, _, sigOk) => if d == h && d in env.issues && sigOk then a else 0
    case _ => 0
  }

  /** How many coins of `h` a row issues. */
  function CoinsIssued(env: Env, h: Hash): Row -> int {
    (row: Row) =>
      match row
      case Withdraw(_, d) => if d == h && d in env.issues then 1 else 0
      case Melt(_, _, _, _, _, newCoins) => if Settles(env, row) then Sum(newCoins, OneOf(h)) else 0
      case _ => 0
  }

  /** Whether a row changes the record of `h`. */
  function Touches(env: Env, h: Hash): Row -> bool {
    (row: Row) =>
      match row
      case Withdraw(_, d) => d == h && d in env.issues
      case Refund(_, d, a, sigOk) => d == h && d in env.issues && sigOk && a >= env.issues[d].feeRefund
      case RecoupRefresh(_, oldH, d, _, _, sigOk) =>
        (oldH == h && oldH in env.issues) || (d == h && d in env.issues && sigOk)
      case Recoup(_, d, _, _, sigOk) => d == h && d in env.issues && sigOk
      case Melt(_, d, _, _, _, newCoins) => Settles(env, row) && (d == h || h in newCoins)
      case Deposit(_, d, _, _, wireOk, sigOk) => d == h && d in env.issues && wireOk && sigOk
  }

  /** What a row brings into the escrow and the risk, of whatever denominations. */
  function Brought(env: Env, row: Row): int {
    match row
    case Withdraw(_, d) => if d in env.issues then env.issues[d].value else 0
    case Refund(_, d, a, sigOk) => if d in env.issues && sigOk then Max0(a - env.issues[d].feeRefund) else 0
    case Melt(_, _, _, _, _, newCoins) => if Settles(env, row) then Sum(newCoins, WorthOf(env)) else 0
    case _ => 0
  }

  // ----- what a row does -----

  /** Put `credit` in, then take `debit` out; a debit that is not covered goes to the losses as a whole. */
  ghost predicate Turned(s: Summary, s': Summary, credit: int, debit: nat) {
    if s.denom.balance + credit >= debit then
      && s'.denom.balance == s.denom.balance + credit - debit
      && s'.denom.loss == s.denom.loss && s'.emergency == s.emergency
    else
      && s'.denom.balance == s.denom.balance + credit
      && s'.denom.loss == s.denom.loss + debit && s'.emergency
  }

  /** What is recorded besides balance and loss. */
  ghost predicate Counted(d: Denom, d': Denom, risk: int, recoup: nat, issued: int) {
    d'.risk == d.risk + risk && d'.recoup == d.recoup + recoup && d'.issued == d.issued + issued
  }

  /** The effect of a row on a denomination. */
  ghost predicate Effect(env: Env, row: Row, h: Hash, s: Summary, s': Summary) {
    && Turned(s, s', Credited(env, row, h), Debited(env, row, h))
    && Counted(s.denom, s'.denom, if row.RecoupRefresh? then 0 else Credited(env, row, h),
               Recouped(env, row, h), CoinsIssued(env, h)(row))
  }

  /** What the row does to the totals; an escrow that is too small is left as it is. */
  ghost predicate TotalEffect(env: Env, row: Row, t: Totals, t': Totals) {
    var debit := if row.Melt? || row.Deposit? then Debited(env, row, row.h) else 0;
    && t'.escrow == (if t.escrow + Brought(env, row) >= debit then t.escrow + Brought(env, row) - debit
                     else t.escrow + Brought(env, row))
    && t'.risk == t.risk + Brought(env, row)
    && t'.recoupLoss == t.recoupLoss + Recouped(env, row, row.h)
  }

  // ----- moves, seen from one denomination and from the totals -----

  function MovedDenom(s: Summary, ms: seq<Move>, h: Hash): Summary
    decreases |ms|
  {
    if ms == [] then s else MovedDenom(if ms[0].h == h then MoveDenom(s, ms[0]) else s, ms[1..], h)
  }

  function MovedTotals(t: Totals, ms: seq<Move>): Totals
    decreases |ms|
  {
    if ms == [] then t else MovedTotals(MoveTotals(t, ms[0]), ms[1..])
  }

  lemma {:induction false} MovedIs(st: State, ms: seq<Move>, h: Hash)
    ensures Load(ApplyAll(st, ms), h) == MovedDenom(Load(st, h), ms, h)
    ensures ApplyAll(st, ms).totals == MovedTotals(st.totals, ms)
    decreases |ms|
  {
    if ms != [] {
      MovedIs(Apply(st, ms[0]), ms[1..], h);
    }
  }

  lemma {:induction false} MovedOne(s: Summary, t: Totals, m: Move, h: Hash)
    ensures MovedDenom(s, [m], h) == if m.h == h then MoveDenom(s, m) else s
    ensures MovedTotals(t, [m]) == MoveTotals(t, m)
  {
    assert [m][1..] == [];
  }

  lemma {:induction false} MovedThen(s: Summary, t: Totals, ms: seq<Move>, m: Move, h: Hash)
    ensures MovedDenom(s, ms + [m], h) == MovedDenom(MovedDenom(s, ms, h), [m], h)
    ensures MovedTotals(t, ms + [m]) == MoveTotals(MovedTotals(t, ms), m)
    decreases |ms|
  {
    if ms == [] {
      assert ms + [m] == [m];
      MovedOne(s, t, m, h);
    } else {
      assert (ms + [m])[1..] == ms[1..] + [m];
      MovedThen(if ms[0].h == h then MoveDenom(s, ms[0]) else s, MoveTotals(t, ms[0]), ms[1..], m, h);
    }
  }

  lemma {:induction false} IssuedDenom(env: Env, newCoins: seq<Hash>, h: Hash, s: Summary)
    requires forall f | f in newCoins :: f in env.issues
    ensures var s', worth := MovedDenom(s, IssueMoves(env, newCoins), h), Sum(newCoins, WorthTo(env, h));
      Turned(s, s', worth, 0) && Counted(s.denom, s'.denom, worth, 0, Sum(newCoins, OneOf(h))) && worth >= 0
    decreases |newCoins|
  {
    if newCoins != [] {
      var ms := IssueMoves(env, newCoins);
      assert ms[1..] == IssueMoves(env, newCoins[1..]);
      IssuedDenom(env, newCoins[1..], h, if ms[0].h == h then MoveDenom(s, ms[0]) else s);
    }
  }

  lemma {:induction false} IssuedTotals(env: Env, newCoins: seq<Hash>, t: Totals)
    requires forall f | f in newCoins :: f in env.issues
    ensures var t', worth := MovedTotals(t, IssueMoves(env, newCoins)), Sum(newCoins, WorthOf(env));
      worth >= 0 && t'.escrow == t.escrow + worth && t'.risk == t.risk + worth && t'.recoupLoss == t.recoupLoss
    decreases |newCoins|
  {
    if newCoins != [] {
      var ms := IssueMoves(env, newCoins);
      assert ms[1..] == IssueMoves(env, newCoins[1..]);
      IssuedTotals(env, newCoins[1..], MoveTotals(t, ms[0]));
    }
  }

  lemma {:induction false} MeltEffect(env: Env, row: Row, h: Hash, s: Summary, t: Totals)
    requires Settles(env, row)
    ensures Effect(env, row, h, s, MovedDenom(s, Moves(env, row), h))
    ensures TotalEffect(env, row, t, MovedTotals(t, Moves(env, row)))
  {
    var ms, m := IssueMoves(env, row.newCoins), Spend(row.h, row.amount);
    IssuedDenom(env, row.newCoins, h, s);
    IssuedTotals(env, row.newCoins, t);
    MovedThen(s, t, ms, m, h);
    MovedOne(MovedDenom(s, ms, h), MovedTotals(t, ms), m, h);
    SpentAfter(s, MovedDenom(s, ms, h), row.h, row.amount, h, Sum(row.newCoins, WorthTo(env, h)));
  }

  lemma {:induction false} SpentAfter(s: Summary, s1: Summary, d: Hash, amount: nat, h: Hash, credit: int)
    requires Turned(s, s1, credit, 0) && s.denom.balance + credit >= 0
    ensures var s' := if d == h then MoveDenom(s1, Spend(d, amount)) else s1;
      && Turned(s, s', credit, if d == h then amount else 0)
      && Counted(s1.denom, s'.denom, 0, 0, 0)
  {
  }

  lemma {:induction false} OtherEffect(env: Env, row: Row, h: Hash, s: Summary, t: Totals)
    requires !Fatal(env, row) && !Settles(env, row)
    ensures Effect(env, row, h, s, MovedDenom(s, Moves(env, row), h))
    ensures TotalEffect(env, row, t, MovedTotals(t, Moves(env, row)))
  {
    var ms := Moves(env, row);
    if row.RecoupRefresh? {
      RecoupRefreshEffect(env, row, h, s, t);
    } else if ms != [] {
      assert ms == [ms[0]];
      MovedOne(s, t, ms[0], h);
    }
  }

  lemma {:induction false} RecoupRefreshEffect(env: Env, row: Row, h: Hash, s: Summary, t: Totals)
    requires row.RecoupRefresh?
    ensures Effect(env, row, h, s, MovedDenom(s, Moves(env, row), h))
    ensures TotalEffect(env, row, t, MovedTotals(t, Moves(env, row)))
  {
    RecoupRefreshMoves(env, row, h, s, t);
    var s1 := if row.oldH in env.issues && row.oldH == h then MoveDenom(s, CreditOld(h, row.amount)) else s;
    var s2 := if row.h in env.issues && row.sigOk && row.h == h then MoveDenom(s1, BookRecoup(h, row.amount)) else s1;
    assert Effect(env, row, h, s, s2);
  }

  lemma {:induction false} RecoupRefreshMoves(env: Env, row: Row, h: Hash, s: Summary, t: Totals)
    requires row.RecoupRefresh?
    ensures var s1 := if row.oldH in env.issues && row.oldH == h then MoveDenom(s, CreditOld(h, row.amount)) else s;
      MovedDenom(s, Moves(env, row), h)
      == if row.h in env.issues && row.sigOk && row.h == h then MoveDenom(s1, BookRecoup(h, row.amount)) else s1
    ensures MovedTotals(t, Moves(env, row))
      == if row.h in env.issues && row.sigOk then t.(recoupLoss := t.recoupLoss + row.amount) else t
  {
    var credit, recoup := CreditOld(row.oldH, row.amount), BookRecoup(row.h, row.amount);
    var first := if row.oldH in env.issues then [credit] else [];
    if row.oldH in env.issues {
      MovedOne(s, t, credit, h);
    }
    if row.h in env.issues && row.sigOk {
      assert Moves(env, row) == first + [recoup];
      MovedThen(s, t, first, recoup, h);
      MovedOne(MovedDenom(s, first, h), t, recoup, h);
    } else {
      assert Moves(env, row) == first;
    }
  }

  /**
   * One row of any table: what it does to every denomination and to the totals, and how the callback
   * ends.  It dies on a row below the checkpoint and on a signed refund of a known denomination that
   * does not cover its fee; a refund of an unknown one ends the table.
   */
  lemma {:induction false} RowEffect(env: Env, st: State, row: Row, h: Hash)
    ensures var out := Step(env, st, row);
      && (out.Abort? <==>
            || row.id < NextId(st.progress, KindOf(row))
            || (row.Refund? && row.h in env.issues && row.sigOk && row.amount < env.issues[row.h].feeRefund))
      && (!out.Abort? ==>
            && (out.EndTable? <==> row.Refund? && row.h !in env.issues)
            && Effect(env, row, h, Load(st, h), Load(out.st, h))
            && TotalEffect(env, row, st.totals, out.st.totals)
            && NextId(out.st.progress, KindOf(row)) == row.id + 1)
  {
    if row.id >= NextId(st.progress, KindOf(row)) && !Fatal(env, row) {
      var st1 := Pass(env, st, row);
      assert Load(st1, h) == Load(st, h);
      ApplyAllFrame(st1, Moves(env, row));
      MovedIs(st1, Moves(env, row), h);
      if Settles(env, row) {
        MeltEffect(env, row, h, Load(st, h), st.totals);
      } else {
        OtherEffect(env, row, h, Load(st, h), st.totals);
      }
    }
  }

  /** A denomination that is met for the first time starts with nothing. */
  lemma {:induction false} FirstMet(st: State, h: Hash)
    ensures h !in st.mem && h !in st.db ==> Load(st, h) == Summary(Denom(0, 0, 0, 0, 0), false, false)
    ensures h !in st.mem && h in st.db ==> Load(st, h) == Summary(st.db[h], true, false)
  {
  }

  lemma {:induction false} TouchedBy(env: Env, row: Row, h: Hash)
    requires !Fatal(env, row)
    ensures Touches(env, h)(row) <==> exists m | m in Moves(env, row) :: m.h == h
  {
    var ms := Moves(env, row);
    if Settles(env, row) {
      var issues := IssueMoves(env, row.newCoins);
      assert ms == issues + [Spend(row.h, row.amount)];
      if h in row.newCoins {
        var i :| 0 <= i < |row.newCoins| && row.newCoins[i] == h;
        assert issues[i] in ms;
      }
      if row.h == h {
        assert Spend(row.h, row.amount) in ms;
      }
    } else if Touches(env, h)(row) {
      assert ms != [] && (ms[0].h == h || ms[|ms| - 1].h == h);
      assert ms[0] in ms && ms[|ms| - 1] in ms;
    }
  }
}
