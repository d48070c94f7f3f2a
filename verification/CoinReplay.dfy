/**
 * The auditor replays whole tables one after the other, not in the order in which things
 * happened.  The replay raises no false alarm: if the outstanding value of a denomination
 * never went below zero as the rows happened, no replayed debit finds the balance too small.
 */
module CoinReplay {
  import opened Sums
  import opened CoinLedger
  import opened CoinRows
  import opened CoinRuns
  import opened Reordering

  /** What a move adds to the outstanding value of denomination `h`. */
  function Delta(m: Move, h: Hash): int {
    if m.h != h then 0 else
      match m
      case IssueCoin(_, v) => v
      case GiveBack(_, a) => a
      case CreditOld(_, a) => a
      case Spend(_, a) => 0 - a
      case BookRecoup(_, _) => 0
  }

  function MovesDelta(ms: seq<Move>, h: Hash): int {
    if ms == [] then 0 else Delta(ms[0], h) + MovesDelta(ms[1..], h)
  }

  /** The moves of a row add up to what the row is worth to the denomination. */
  lemma {:induction false} MovesValue(env: Env, row: Row, h: Hash)
    requires !Fatal(env, row)
    ensures MovesDelta(Moves(env, row), h) == RowValue(env, row, h)
  {
    var ms := Moves(env, row);
    if Settles(env, row) {
      IssuesValue(env, row.newCoins, h);
      IssuesThenSpend(0, IssueMoves(env, row.newCoins), Spend(row.h, row.amount), h);
    } else if |ms| == 1 {
      assert ms[1..] == [];
    } else if |ms| == 2 {
      assert ms[1..] == [ms[1]] && [ms[1]][1..] == [];
      assert MovesDelta([ms[1]], h) == Delta(ms[1], h);
    }
  }

  lemma {:induction false} IssuesValue(env: Env, newCoins: seq<Hash>, h: Hash)
    requires forall f | f in newCoins :: f in env.issues
    ensures MovesDelta(IssueMoves(env, newCoins), h) == Sum(newCoins, WorthTo(env, h))
  {
    if newCoins != [] {
      assert IssueMoves(env, newCoins)[1..] == IssueMoves(env, newCoins[1..]);
      IssuesValue(env, newCoins[1..], h);
    }
  }

  // ----- moves that never hit the loss branch -----

  /** From balance `b`, every debit of `h` in `ms` is covered when its turn comes. */
  predicate Covered(b: int, ms: seq<Move>, h: Hash)
    decreases |ms|
  {
    ms != [] ==>
      && (ms[0].Spend? && ms[0].h == h ==> b >= ms[0].amount)
      && Covered(b + Delta(ms[0], h), ms[1..], h)
  }

  /** What is left untouched, and what is added, when every debit is covered. */
  predicate Quiet(s: Summary, s': Summary, delta: int) {
    && s'.denom.balance == s.denom.balance + delta
    && s'.denom.loss == s.denom.loss
    && s'.emergency == s.emergency
  }

  lemma {:induction false} CoveredApplyAll(st: State, ms: seq<Move>, h: Hash)
    requires Covered(Load(st, h).denom.balance, ms, h)
    ensures Quiet(Load(st, h), Load(ApplyAll(st, ms), h), MovesDelta(ms, h))
    decreases |ms|
  {
    if ms != [] {
      CoveredApplyAll(Apply(st, ms[0]), ms[1..], h);
    }
  }

  lemma {:induction false} IssuesThenSpend(b: int, ms: seq<Move>, m: Move, h: Hash)
    requires forall x | x in ms :: x.IssueCoin?
    ensures MovesDelta(ms + [m], h) == MovesDelta(ms, h) + Delta(m, h)
    ensures MovesDelta(ms, h) >= 0
    ensures Covered(b, ms + [m], h) <==> (m.Spend? && m.h == h ==> b + MovesDelta(ms, h) >= m.amount)
    decreases |ms|
  {
    if ms == [] {
      assert ms + [m] == [m];
      assert [m][1..] == [];
    } else {
      assert (ms + [m])[1..] == ms[1..] + [m];
      IssuesThenSpend(b + Delta(ms[0], h), ms[1..], m, h);
    }
  }

  lemma {:induction false} NoSpendCovered(b: int, ms: seq<Move>, h: Hash)
    requires forall m | m in ms :: !m.Spend?
    ensures Covered(b, ms, h) && MovesDelta(ms, h) >= 0
    decreases |ms|
  {
    if ms != [] {
      NoSpendCovered(b + Delta(ms[0], h), ms[1..], h);
    }
  }

  /** Only the net effect of a row matters: a melt issues its new coins before it debits the old one. */
  lemma {:induction false} RowCovered(env: Env, b: int, row: Row, h: Hash)
    requires !Fatal(env, row)
    requires b >= 0 && b + RowValue(env, row, h) >= 0
    ensures Covered(b, Moves(env, row), h)
  {
    var ms := Moves(env, row);
    MovesValue(env, row, h);
    if ms != [] {
      match row
      case Melt(_, _, a, _, _, newCoins) =>
        IssuesThenSpend(b, IssueMoves(env, newCoins), Spend(row.h, a), h);
      case Deposit(_, _, _, _, _, _) =>
        assert ms[1..] == [];
        assert MovesDelta(ms, h) == Delta(ms[0], h) + MovesDelta(ms[1..], h);
      case _ =>
        NoSpendCovered(b, ms, h);
    }
  }

  // ----- moves that do -----

  /** A debit went to the losses, and the record is marked. */
  predicate Alarmed(s: Summary, s': Summary) { s'.emergency && s'.denom.loss > s.denom.loss }

  /** Marks and losses are never taken back. */
  predicate Louder(s: Summary, s': Summary) { (s.emergency ==> s'.emergency) && s'.denom.loss >= s.denom.loss }

  lemma {:induction false} LouderApplyAll(st: State, ms: seq<Move>, h: Hash)
    ensures Louder(Load(st, h), Load(ApplyAll(st, ms), h))
    decreases |ms|
  {
    if ms != [] {
      LouderApplyAll(Apply(st, ms[0]), ms[1..], h);
    }
  }

  /** The first debit that is not covered raises the alarm, and nothing after it calms it. */
  lemma {:induction false} UncoveredAlarms(st: State, ms: seq<Move>, h: Hash)
    requires !Covered(Load(st, h).denom.balance, ms, h)
    ensures Alarmed(Load(st, h), Load(ApplyAll(st, ms), h))
    decreases |ms|
  {
    if ms[0].Spend? && ms[0].h == h && Load(st, h).denom.balance < ms[0].amount {
      LouderApplyAll(Apply(st, ms[0]), ms[1..], h);
    } else {
      UncoveredAlarms(Apply(st, ms[0]), ms[1..], h);
    }
  }

  /** Covered debits never take more than there is. */
  lemma {:induction false} CoveredLeavesSome(b: int, ms: seq<Move>, h: Hash)
    requires b >= 0 && Covered(b, ms, h)
    ensures b + MovesDelta(ms, h) >= 0
    decreases |ms|
  {
    if ms != [] {
      CoveredLeavesSome(b + Delta(ms[0], h), ms[1..], h);
    }
  }

  // ----- rows as events -----

  function TableNo(k: Kind): nat {
    match k
    case KWithdraw => 0
    case KRefund => 1
    case KRecoupRefresh => 2
    case KRecoup => 3
    case KMelt => MIXED
    case KDeposit => TAKING
  }

  /** A row as an event on one denomination; `delta` says what it adds there. */
  function EventOf(delta: Row -> int, row: Row): Event {
    Event(TableNo(KindOf(row)), delta(row))
  }

  function EventsOf(delta: Row -> int, rows: seq<Row>): History {
    if rows == [] then Start else Then(EventsOf(delta, rows[..|rows| - 1]), EventOf(delta, rows[|rows| - 1]))
  }

  function DeltaOf(env: Env, h: Hash): Row -> int {
    (row: Row) => RowValue(env, row, h)
  }

  lemma {:induction false} EventsOfFirst(delta: Row -> int, rows: seq<Row>)
    requires rows != []
    ensures EventsOf(delta, rows) == Append(Then(Start, EventOf(delta, rows[0])), EventsOf(delta, rows[1..]))
  {
    if |rows| > 1 {
      var front := rows[..|rows| - 1];
      EventsOfFirst(delta, front);
      assert front[1..] == rows[1..][..|rows| - 2];
    }
  }

  lemma {:induction false} RowIsWellTagged(env: Env, row: Row, h: Hash)
    ensures WellTagged(EventOf(DeltaOf(env, h), row))
  {
  }

  lemma {:induction false} EventsAreWellTagged(delta: Row -> int, rows: seq<Row>)
    requires forall row :: WellTagged(EventOf(delta, row))
    ensures AllWellTagged(EventsOf(delta, rows))
  {
    if rows != [] {
      EventsAreWellTagged(delta, rows[..|rows| - 1]);
    }
  }

  /** The rows of one table, in the order in which they happened. */
  function OfKind(rows: seq<Row>, k: Kind): seq<Row> {
    if rows == [] then [] else
      OfKind(rows[..|rows| - 1], k) +
      if KindOf(rows[|rows| - 1]) == k then [rows[|rows| - 1]] else []
  }

  lemma {:induction false} OfKindEvents(delta: Row -> int, rows: seq<Row>, k: Kind)
    ensures OfTable(EventsOf(delta, rows), TableNo(k)) == EventsOf(delta, OfKind(rows, k))
    ensures forall r | r in OfKind(rows, k) :: KindOf(r) == k && r in rows
  {
    if rows != [] {
      var last, before := rows[|rows| - 1], rows[..|rows| - 1];
      OfKindEvents(delta, before, k);
      if KindOf(last) == k {
        EventsThen(delta, OfKind(before, k), last);
      } else {
        assert OfKind(rows, k) == OfKind(before, k);
      }
    }
  }

  lemma {:induction false} EventsThen(delta: Row -> int, rows: seq<Row>, last: Row)
    ensures EventsOf(delta, rows + [last]) == Then(EventsOf(delta, rows), EventOf(delta, last))
  {
    assert (rows + [last])[..|rows|] == rows;
  }

  // ----- scans -----

  /** Rows a callback neither dies on nor ends its table for. */
  predicate Ordinary(env: Env, row: Row) { !Fatal(env, row) && !UnknownRefund(env, row) }

  /** Either nothing alarming has happened and `delta` was added, or the alarm was raised. */
  predicate Told(s: Summary, s': Summary, fine: bool, delta: int) {
    Louder(s, s') && if fine then Quiet(s, s', delta) else Alarmed(s, s')
  }

  lemma {:induction false} ToldThen(
    s: Summary, s1: Summary, s2: Summary, fine1: bool, delta1: int, fine2: bool, delta2: int)
    requires Told(s, s1, fine1, delta1) && Told(s1, s2, fine2, delta2)
    ensures Told(s, s2, fine1 && fine2, delta1 + delta2)
  {
  }

  lemma {:induction false} StepTells(env: Env, st: State, row: Row, h: Hash)
    requires Ordinary(env, row) && row.id >= NextId(st.progress, KindOf(row))
    ensures Step(env, st, row).Next?
    ensures Told(Load(st, h), Load(Step(env, st, row).st, h),
                 Load(st, h).denom.balance + RowValue(env, row, h) >= 0, RowValue(env, row, h))
  {
    var st', ms, b := Pass(env, st, row), Moves(env, row), Load(st, h).denom.balance;
    MovesValue(env, row, h);
    LouderApplyAll(st', ms, h);
    if b + RowValue(env, row, h) >= 0 {
      RowCovered(env, b, row, h);
      CoveredApplyAll(st', ms, h);
    } else {
      if Covered(b, ms, h) {
        CoveredLeavesSome(b, ms, h);
      }
      UncoveredAlarms(st', ms, h);
    }
  }

  /** A callback that, on an ordinary row, adds `delta` if it has the balance for it and else raises the alarm. */
  ghost predicate TellingCallback(env: Env, cb: Callback, delta: Row -> int, h: Hash) {
    && Checkpoints(env, cb)
    && forall st: State, row: Row {:trigger cb(st, row)} |
         Ordinary(env, row) && row.id >= NextId(st.progress, KindOf(row)) ::
         && cb(st, row).Next?
         && Told(Load(st, h), Load(cb(st, row).st, h), Load(st, h).denom.balance + delta(row) >= 0, delta(row))
  }

  lemma {:induction false} CallbackTells(env: Env, h: Hash)
    ensures TellingCallback(env, CallbackOf(env), DeltaOf(env, h), h)
  {
    CallbackCheckpoints(env);
    var cb, delta := CallbackOf(env), DeltaOf(env, h);
    forall st: State, row: Row | Ordinary(env, row) && row.id >= NextId(st.progress, KindOf(row))
      ensures cb(st, row).Next?
      ensures Told(Load(st, h), Load(cb(st, row).st, h), Load(st, h).denom.balance + delta(row) >= 0, delta(row))
    {
      StepTells(env, st, row, h);
    }
  }

  /** A scan raises the alarm exactly when the running total goes below zero. */
  lemma {:induction false} ScanTells(
    env: Env, cb: Callback, delta: Row -> int, st: State, rows: seq<Row>, k: Kind, h: Hash)
    requires TellingCallback(env, cb, delta, h)
    requires Ascending(rows) && forall r | r in rows :: KindOf(r) == k && Ordinary(env, r)
    requires forall r | r in rows :: r.id >= NextId(st.progress, k)
    ensures Scan(cb, st, rows).Next?
    ensures var es := EventsOf(delta, rows);
      Told(Load(st, h), Load(Scan(cb, st, rows).st, h), NeverNegative(Load(st, h).denom.balance, es), Net(es))
    decreases |rows|
  {
    if rows != [] {
      var b, es := Load(st, h).denom.balance, EventsOf(delta, rows[1..]);
      var st' := cb(st, rows[0]).st;
      var b' := Load(st', h).denom.balance;
      ScanTells(env, cb, delta, st', rows[1..], k, h);
      ToldThen(Load(st, h), Load(st', h), Load(Scan(cb, st, rows).st, h),
               b + delta(rows[0]) >= 0, delta(rows[0]), NeverNegative(b', es), Net(es));
      FirstRowDecides(delta, rows, b, b');
    }
  }

  lemma {:induction false} FirstRowDecides(delta: Row -> int, rows: seq<Row>, b: nat, b': int)
    requires rows != [] && (b + delta(rows[0]) >= 0 ==> b' == b + delta(rows[0]))
    ensures NeverNegative(b, EventsOf(delta, rows)) <==>
      b + delta(rows[0]) >= 0 && NeverNegative(b', EventsOf(delta, rows[1..]))
    ensures Net(EventsOf(delta, rows)) == delta(rows[0]) + Net(EventsOf(delta, rows[1..]))
  {
    EventsOfFirst(delta, rows);
    OldestFirst(b, EventOf(delta, rows[0]), EventsOf(delta, rows[1..]));
  }

  /** `rows` is what happened since the checkpoints, sorted into the tables `t`. */
  predicate Batch(t: Tables, p: Progress, rows: seq<Row>) {
    forall k: Kind :: Above(RowsOf(t, k), NextId(p, k)) == OfKind(rows, k)
  }

  /** Scanning a table adds its net to `h` if it is ready for the table, and else raises the alarm. */
  ghost predicate TellsAt(
    scan: TableScan, ready: (int, Kind) -> bool, net: Kind -> int, h: Hash, st: State, k: Kind)
  {
    && scan(st, k).Next?
    && Told(Load(st, h), Load(scan(st, k).st, h), ready(Load(st, h).denom.balance, k), net(k))
    && forall j | j != k :: NextId(scan(st, k).st.progress, j) == NextId(st.progress, j)
  }

  ghost predicate TellingScan(
    scan: TableScan, ready: (int, Kind) -> bool, net: Kind -> int, p: Progress, h: Hash)
  {
    forall st: State, k: Kind {:trigger TellsAt(scan, ready, net, h, st, k)} |
      NextId(st.progress, k) == NextId(p, k) :: TellsAt(scan, ready, net, h, st, k)
  }

  /** One more table: ready so far and for this one too, or alarmed. */
  lemma {:induction false} OneMoreTable(
    scan: TableScan, ready: (int, Kind) -> bool, net: Kind -> int, p: Progress, h: Hash,
    s: Summary, st: State, fine: bool, delta: int, k: Kind)
    requires TellingScan(scan, ready, net, p, h) && NextId(st.progress, k) == NextId(p, k)
    requires Told(s, Load(st, h), fine, delta)
    ensures scan(st, k).Next? && forall j | j != k :: NextId(scan(st, k).st.progress, j) == NextId(st.progress, j)
    ensures Told(s, Load(scan(st, k).st, h), fine && ready(s.denom.balance + delta, k), delta + net(k))
  {
    assert TellsAt(scan, ready, net, h, st, k);
    ToldThen(s, Load(st, h), Load(scan(st, k).st, h), fine, delta, ready(Load(st, h).denom.balance, k), net(k));
  }

  /** The four tables that only add. */
  predicate IsCredit(k: Kind) { k != KMelt && k != KDeposit }

  function CreditNet(net: Kind -> int): int {
    net(KWithdraw) + net(KRefund) + net(KRecoupRefresh) + net(KRecoup)
  }

  /** Credits are always ready and add up to `early`; `melts` and `deposits` say whether the other two are. */
  ghost predicate TableFacts(
    ready: (int, Kind) -> bool, net: Kind -> int, b: nat, early: int, melts: bool, deposits: bool, total: int)
  {
    && (forall k | IsCredit(k) :: net(k) >= 0)
    && (forall b: nat, k | IsCredit(k) :: ready(b, k))
    && CreditNet(net) == early
    && ready(b + early, KMelt) == melts
    && ready(b + early + net(KMelt), KDeposit) == deposits
    && early + net(KMelt) + net(KDeposit) == total
  }

  lemma {:induction false} ThreeMoreTables(
    scan: TableScan, ready: (int, Kind) -> bool, net: Kind -> int, p: Progress, h: Hash,
    s: Summary, st: State, fine: bool, delta: int, k1: Kind, k2: Kind, k3: Kind)
    returns (st3: State, fine3: bool, delta3: int)
    requires TellingScan(scan, ready, net, p, h) && k1 != k2 && k1 != k3 && k2 != k3
    requires NextId(st.progress, k1) == NextId(p, k1) && NextId(st.progress, k2) == NextId(p, k2)
    requires NextId(st.progress, k3) == NextId(p, k3)
    requires Told(s, Load(st, h), fine, delta)
    ensures scan(st, k1).Next? && scan(scan(st, k1).st, k2).Next? && scan(scan(scan(st, k1).st, k2).st, k3) == Next(st3)
    ensures forall j | j != k1 && j != k2 && j != k3 :: NextId(st3.progress, j) == NextId(st.progress, j)
    ensures delta3 == delta + net(k1) + net(k2) + net(k3)
    ensures var b := s.denom.balance + delta;
      fine3 == (fine && ready(b, k1) && ready(b + net(k1), k2) && ready(b + net(k1) + net(k2), k3))
    ensures Told(s, Load(st3, h), fine3, delta3)
  {
    var b := s.denom.balance + delta;
    OneMoreTable(scan, ready, net, p, h, s, st, fine, delta, k1);
    var st1, fine1 := scan(st, k1).st, fine && ready(b, k1);
    OneMoreTable(scan, ready, net, p, h, s, st1, fine1, delta + net(k1), k2);
    var st2, fine2 := scan(st1, k2).st, fine1 && ready(b + net(k1), k2);
    OneMoreTable(scan, ready, net, p, h, s, st2, fine2, delta + net(k1) + net(k2), k3);
    st3, fine3 := scan(st2, k3).st, fine2 && ready(b + net(k1) + net(k2), k3);
    delta3 := delta + net(k1) + net(k2) + net(k3);
  }

  lemma {:induction false} InTableOrderTells(
    scan: TableScan, ready: (int, Kind) -> bool, net: Kind -> int, st: State, h: Hash,
    early: int, melts: bool, deposits: bool, total: int)
    requires TellingScan(scan, ready, net, st.progress, h)
    requires TableFacts(ready, net, Load(st, h).denom.balance, early, melts, deposits, total)
    ensures InTableOrder(scan, st).Next?
    ensures Told(Load(st, h), Load(InTableOrder(scan, st).st, h), melts && deposits, total)
  {
    var p, s := st.progress, Load(st, h);
    var b := s.denom.balance;
    var st3, fine3, delta3 :=
      ThreeMoreTables(scan, ready, net, p, h, s, st, true, 0, KWithdraw, KRefund, KRecoupRefresh);
    var st6, fine6, delta6 := ThreeMoreTables(scan, ready, net, p, h, s, st3, fine3, delta3, KRecoup, KMelt, KDeposit);
    InTableOrderIs(scan, st, st3, st6);
    FineIs(ready, net, b, early, melts, deposits, total, fine3, fine6, delta3, delta6);
  }

  lemma {:induction false} FineIs(
    ready: (int, Kind) -> bool, net: Kind -> int, b: nat, early: int, melts: bool, deposits: bool, total: int,
    fine3: bool, fine6: bool, delta3: int, delta6: int)
    requires TableFacts(ready, net, b, early, melts, deposits, total)
    requires delta3 == net(KWithdraw) + net(KRefund) + net(KRecoupRefresh)
    requires delta6 == delta3 + net(KRecoup) + net(KMelt) + net(KDeposit)
    requires fine3 == (ready(b, KWithdraw) && ready(b + net(KWithdraw), KRefund)
                       && ready(b + net(KWithdraw) + net(KRefund), KRecoupRefresh))
    requires fine6 == (fine3 && ready(b + delta3, KRecoup) && ready(b + delta3 + net(KRecoup), KMelt)
                       && ready(b + delta3 + net(KRecoup) + net(KMelt), KDeposit))
    ensures fine6 == (melts && deposits) && delta6 == total
  {
    assert IsCredit(KWithdraw) && IsCredit(KRefund) && IsCredit(KRecoupRefresh) && IsCredit(KRecoup);
    var b1: nat := b + net(KWithdraw);
    var b2: nat := b1 + net(KRefund);
    var b3: nat := b2 + net(KRecoupRefresh);
    assert ready(b, KWithdraw) && ready(b1, KRefund) && ready(b2, KRecoupRefresh) && ready(b3, KRecoup);
    assert b3 + net(KRecoup) == b + early;
  }

  lemma {:induction false} InTableOrderIs(scan: TableScan, st: State, st3: State, st6: State)
    requires scan(st, KWithdraw).Next? && scan(scan(st, KWithdraw).st, KRefund).Next?
    requires scan(scan(scan(st, KWithdraw).st, KRefund).st, KRecoupRefresh) == Next(st3)
    requires scan(st3, KRecoup).Next? && scan(scan(st3, KRecoup).st, KMelt).Next?
    requires scan(scan(scan(st3, KRecoup).st, KMelt).st, KDeposit) == Next(st6)
    ensures InTableOrder(scan, st) == Next(st6)
  {
  }

  function ReadyOf(es: History): (int, Kind) -> bool {
    (b: int, k: Kind) => NeverNegative(b, OfTable(es, TableNo(k)))
  }

  function NetOfTables(es: History): Kind -> int {
    (k: Kind) => Net(OfTable(es, TableNo(k)))
  }

  lemma {:induction false} OneTableTells(
    env: Env, cb: Callback, delta: Row -> int, t: Tables, st: State, rows: seq<Row>, k: Kind, h: Hash)
    requires TellingCallback(env, cb, delta, h)
    requires WellFormed(t) && forall r | r in rows :: Ordinary(env, r)
    requires Above(RowsOf(t, k), NextId(st.progress, k)) == OfKind(rows, k)
    ensures var out, es := Scan(cb, st, OfKind(rows, k)), OfTable(EventsOf(delta, rows), TableNo(k));
      && out.Next?
      && Told(Load(st, h), Load(out.st, h), NeverNegative(Load(st, h).denom.balance, es), Net(es))
      && forall j | j != k :: NextId(out.st.progress, j) == NextId(st.progress, j)
  {
    OfKindEvents(delta, rows, k);
    AboveIsWellFormed(t, k, NextId(st.progress, k));
    ScanTells(env, cb, delta, st, OfKind(rows, k), k, h);
    ScanProgress(env, cb, st, OfKind(rows, k), k);
  }

  /** The replay finds nothing wrong: all credits counted, the melts are covered, and there is no deficit at the end. */
  predicate LooksSafe(b: int, es: History) {
    NeverNegative(b + Net(Early(es)), OfTable(es, MIXED)) && b + Net(es) >= 0
  }

  lemma {:induction false} ReadyIs(es: History, b: int, k: Kind, n: nat)
    requires n == TableNo(k)
    ensures ReadyOf(es)(b, k) == NeverNegative(b, OfTable(es, n))
    ensures NetOfTables(es)(k) == Net(OfTable(es, n))
  {
  }

  lemma {:induction false} CreditsAreReady(es: History)
    requires AllWellTagged(es)
    ensures forall k | IsCredit(k) :: NetOfTables(es)(k) >= 0
    ensures forall b: nat, k | IsCredit(k) :: ReadyOf(es)(b, k)
  {
    forall k | IsCredit(k) ensures NetOfTables(es)(k) >= 0 {
      AddingOnly(0, es, TableNo(k));
    }
    forall b: nat, k | IsCredit(k) ensures ReadyOf(es)(b, k) {
      ReadyIs(es, b, k, TableNo(k));
      AddingOnly(b, es, TableNo(k));
    }
  }

  lemma {:induction false} NetOfCredits(es: History)
    ensures CreditNet(NetOfTables(es)) == Net(Early(es))
  {
    EarlyNet(es);
  }

  lemma {:induction false} DepositsAreReady(es: History, b: int, taking: nat)
    requires AllWellTagged(es) && taking == TAKING
    ensures ReadyOf(es)(b, KDeposit) <==> b + NetOfTables(es)(KDeposit) >= 0
    ensures NetOfTables(es)(KDeposit) == Net(OfTable(es, taking))
  {
    ReadyIs(es, b, KDeposit, taking);
    TakingOnly(b, es);
  }

  /** What the theorem on sorted histories says about the tables. */
  lemma {:induction false} FactsOfTables(es: History, b: nat)
    requires AllWellTagged(es)
    ensures TableFacts(ReadyOf(es), NetOfTables(es), b, Net(Early(es)),
                       NeverNegative(b + Net(Early(es)), OfTable(es, MIXED)), b + Net(es) >= 0, Net(es))
  {
    CreditsAreReady(es);
    NetOfCredits(es);
    TablesAddUp(es);
    ReadyIs(es, b + Net(Early(es)), KMelt, MIXED);
    DepositsAreReady(es, b + Net(Early(es)) + NetOfTables(es)(KMelt), TAKING);
  }

  lemma {:induction false} SortedTells(scan: TableScan, es: History, st: State, h: Hash)
    requires AllWellTagged(es) && TellingScan(scan, ReadyOf(es), NetOfTables(es), st.progress, h)
    ensures InTableOrder(scan, st).Next?
    ensures Told(Load(st, h), Load(InTableOrder(scan, st).st, h), LooksSafe(Load(st, h).denom.balance, es), Net(es))
  {
    var b := Load(st, h).denom.balance;
    FactsOfTables(es, b);
    InTableOrderTells(scan, ReadyOf(es), NetOfTables(es), st, h, Net(Early(es)),
                      NeverNegative(b + Net(Early(es)), OfTable(es, MIXED)), b + Net(es) >= 0, Net(es));
  }

  lemma {:induction false} RowsAreWellTagged(env: Env, rows: seq<Row>, h: Hash)
    ensures AllWellTagged(EventsOf(DeltaOf(env, h), rows))
  {
    forall row ensures WellTagged(EventOf(DeltaOf(env, h), row)) {
      RowIsWellTagged(env, row, h);
    }
    EventsAreWellTagged(DeltaOf(env, h), rows);
  }

  // ----- whole runs -----

  /** Nothing is written to the database, and no emergency reported, before the write-back. */
  lemma {:induction false} ScanTablesKeepsDb(env: Env, t: Tables, st: State)
    ensures var out := ScanTables(CallbackOf(env), t, st);
      out.Next? ==> out.st.db == st.db && out.st.emergencies == st.emergencies
  {
    var cb, db, em := CallbackOf(env), st.db, st.emergencies;
    var inv := (s: State) => s.db == db && s.emergencies == em;
    forall s, row | inv(s) && !cb(s, row).Abort? ensures inv(cb(s, row).st) {
      if !Fatal(env, row) {
        ApplyAllFrame(Pass(env, s, row), Moves(env, row));
      }
    }
    ScanTablesKeeps(cb, inv, t, st);
  }

  /** What the write-back makes of an alarm, or of none. */
  lemma {:induction false} WriteBackTells(
    env: Env, now: nat, order: seq<Hash>, st: State, scanned: Outcome, h: Hash, fine: bool, delta: int)
    requires st.mem == map[] && st.emergencies == {}
    requires scanned.Next? && Balanced(scanned.st) && Visits(order, scanned.st)
    requires scanned.st.db == st.db && scanned.st.emergencies == {}
    requires Told(Load(st, h), Load(scanned.st, h), fine, delta)
    ensures var out := WriteBack(env, now, order, scanned);
      && out.Next?
      && (h in out.st.emergencies <==> !fine && !Expired(env, now, h))
      && (!Expired(env, now, h) ==>
           var before, after := LookupDenom(st.db, h), LookupDenom(out.st.db, h);
           if fine then after.balance == before.balance + delta && after.loss == before.loss
           else after.loss > before.loss)
  {
    SyncAt(env, now, scanned.st, order, h);
  }

  /** A run over a batch of ordinary rows, `rows` being the order in which they happened. */
  ghost predicate OrdinaryRun(x: Attempt, a: Stored, rows: seq<Row>) {
    && StoredBalanced(a) && WellFormed(x.tables) && Plausible(x, a)
    && (forall r | r in rows :: Ordinary(x.env, r))
    && Batch(x.tables, a.progress, rows)
  }

  /**
   * Exactly when a run reports an emergency by amount: unless the denomination has expired, it does
   * if and only if, with every credit of the batch counted first, the melts are not covered or the
   * batch as a whole leaves a deficit.  Then a loss is booked; otherwise none is, and the
   * outstanding value is stored.
   */
  lemma {:induction false} AlarmExactly(x: Attempt, a: Stored, rows: seq<Row>, h: Hash)
    requires OrdinaryRun(x, a, rows)
    ensures var out, es := Analyze(x.env, x.now, x.tables, x.order, a), EventsOf(DeltaOf(x.env, h), rows);
      var before := LookupDenom(a.db, h);
      && out.Next?
      && (h in out.st.emergencies <==> !LooksSafe(before.balance, es) && !Expired(x.env, x.now, h))
      && (!Expired(x.env, x.now, h) ==>
           var after := LookupDenom(out.st.db, h);
           if LooksSafe(before.balance, es)
           then after.balance == before.balance + Net(es) && after.loss == before.loss
           else after.loss > before.loss)
  {
    var st, es := Begin(a), EventsOf(DeltaOf(x.env, h), rows);
    var cb, delta := CallbackOf(x.env), DeltaOf(x.env, h);
    var scan := TableScanOf(cb, x.tables);
    RowsAreWellTagged(x.env, rows, h);
    CallbackTells(x.env, h);
    forall s: State, k: Kind | NextId(s.progress, k) == NextId(st.progress, k)
      ensures TellsAt(scan, ReadyOf(es), NetOfTables(es), h, s, k)
    {
      OneTableTells(x.env, cb, delta, x.tables, s, rows, k, h);
    }
    SortedTells(scan, es, st, h);
    ScanTablesKeepsBalanced(x.env, x.tables, st);
    ScanTablesKeepsDb(x.env, x.tables, st);
    var scanned := ScanTables(CallbackOf(x.env), x.tables, st);
    WriteBackTells(x.env, x.now, x.order, st, scanned, h, LooksSafe(LookupDenom(a.db, h).balance, es), Net(es));
  }

  /**
   * No false alarm: take any batch of ordinary rows in the order in which they happened, in
   * which the outstanding value of `h` never goes below zero.  Then the run that finds them
   * sorted into tables does not die, reports no emergency for `h`, and stores the outstanding
   * value as its balance without any loss (unless `h` has expired).
   */
  lemma {:induction false} NoFalseAlarm(x: Attempt, a: Stored, rows: seq<Row>, h: Hash)
    requires OrdinaryRun(x, a, rows)
    requires NeverNegative(LookupDenom(a.db, h).balance, EventsOf(DeltaOf(x.env, h), rows))
    ensures var out := Analyze(x.env, x.now, x.tables, x.order, a);
      && out.Next?
      && h !in out.st.emergencies
      && (!Expired(x.env, x.now, h) ==>
           var before, after := LookupDenom(a.db, h), LookupDenom(out.st.db, h);
           && after.balance == before.balance + Net(EventsOf(DeltaOf(x.env, h), rows))
           && after.loss == before.loss)
  {
    SafeLooksSafe(x.env, LookupDenom(a.db, h).balance, rows, h);
    AlarmExactly(x, a, rows, h);
  }

  lemma {:induction false} SafeLooksSafe(env: Env, b: nat, rows: seq<Row>, h: Hash)
    requires NeverNegative(b, EventsOf(DeltaOf(env, h), rows))
    ensures LooksSafe(b, EventsOf(DeltaOf(env, h), rows))
  {
    RowsAreWellTagged(env, rows, h);
    MixedCovered(b, EventsOf(DeltaOf(env, h), rows));
  }

  /**
   * A real deficit that the run does not see: a coin worth more than what is outstanding is
   * deposited before the coin that makes up for it is withdrawn.  The alarm comes only if the
   * deposit exceeds both together.
   */
  lemma {:induction false} DeficitGoesUnseen(x: Attempt, a: Stored, deposit: Row, withdrawal: Row)
    requires deposit.Deposit? && withdrawal.Withdraw? && deposit.h == withdrawal.h && deposit.h in x.env.issues
    requires deposit.wireOk && deposit.sigOk && !Expired(x.env, x.now, deposit.h)
    requires OrdinaryRun(x, a, [deposit, withdrawal])
    requires deposit.amount > LookupDenom(a.db, deposit.h).balance
    ensures var h, out := deposit.h, Analyze(x.env, x.now, x.tables, x.order, a);
      && !NeverNegative(LookupDenom(a.db, h).balance, EventsOf(DeltaOf(x.env, h), [deposit, withdrawal]))
      && out.Next?
      && (h in out.st.emergencies <==> deposit.amount > LookupDenom(a.db, h).balance + x.env.issues[h].value)
  {
    var h, b := deposit.h, LookupDenom(a.db, deposit.h).balance;
    TwoRowsLook(x.env, deposit, withdrawal, b);
    AlarmExactly(x, a, [deposit, withdrawal], h);
  }

  lemma {:induction false} TwoRowsLook(env: Env, deposit: Row, withdrawal: Row, b: nat)
    requires deposit.Deposit? && withdrawal.Withdraw? && deposit.h == withdrawal.h && deposit.h in env.issues
    requires deposit.wireOk && deposit.sigOk
    ensures var es := EventsOf(DeltaOf(env, deposit.h), [deposit, withdrawal]);
      && (NeverNegative(b, es) <==> deposit.amount <= b)
      && (LooksSafe(b, es) <==> deposit.amount <= b + env.issues[deposit.h].value)
  {
    TwoRowEvents(env, deposit, withdrawal);
    SortingHidesDeficits(b, deposit.amount, env.issues[deposit.h].value);
  }

  lemma {:induction false} TwoRowEvents(env: Env, deposit: Row, withdrawal: Row)
    requires deposit.Deposit? && withdrawal.Withdraw? && deposit.h == withdrawal.h && deposit.h in env.issues
    requires deposit.wireOk && deposit.sigOk
    ensures EventsOf(DeltaOf(env, deposit.h), [deposit, withdrawal])
      == Then(Then(Start, Event(TAKING, 0 - deposit.amount)), Event(0, env.issues[deposit.h].value))
  {
    var h := deposit.h;
    var delta := DeltaOf(env, h);
    assert [deposit, withdrawal][..1] == [deposit] && [deposit][..0] == [];
    assert EventsOf(delta, [deposit]) == Then(EventsOf(delta, []), EventOf(delta, deposit));
  }

  // ----- sequences of runs -----

  /** A run together with what happened since the one before. */
  datatype Period = Period(x: Attempt, rows: seq<Row>)

  /** The run commits, finds exactly the new rows in its tables, and `h` has not expired. */
  ghost predicate Regular(p: Period, a: Stored, h: Hash) {
    && OrdinaryRun(p.x, a, p.rows)
    && !p.x.edbCommit.Failed() && !p.x.adbCommit.Failed()
    && !Expired(p.x.env, p.x.now, h)
  }

  ghost predicate AllRegular(
    run: (Period, Stored) -> Stored, regular: (Period, Stored) -> bool, ps: seq<Period>, a: Stored)
    decreases |ps|
  {
    ps != [] ==> regular(ps[0], a) && AllRegular(run, regular, ps[1..], run(ps[0], a))
  }

  /** No run of the sequence raises the alarm. */
  ghost predicate NoAlarm(run: (Period, Stored) -> Stored, alarm: (Period, Stored) -> bool, ps: seq<Period>, a: Stored)
    decreases |ps|
  {
    ps != [] ==> !alarm(ps[0], a) && NoAlarm(run, alarm, ps[1..], run(ps[0], a))
  }

  function RunAll(run: (Period, Stored) -> Stored, ps: seq<Period>, a: Stored): Stored
    decreases |ps|
  {
    if ps == [] then a else RunAll(run, ps[1..], run(ps[0], a))
  }

  function AllEvents(events: Period -> History, ps: seq<Period>): History {
    if ps == [] then Start else Append(events(ps[0]), AllEvents(events, ps[1..]))
  }

  lemma {:induction false} QuietForever(
    run: (Period, Stored) -> Stored, regular: (Period, Stored) -> bool, alarm: (Period, Stored) -> bool,
    events: Period -> History, denom: Stored -> Denom, ps: seq<Period>, a: Stored)
    requires forall p, s | regular(p, s) && NeverNegative(denom(s).balance, events(p)) ::
      && !alarm(p, s)
      && denom(run(p, s)).balance == denom(s).balance + Net(events(p))
      && denom(run(p, s)).loss == denom(s).loss
    requires AllRegular(run, regular, ps, a)
    requires NeverNegative(denom(a).balance, AllEvents(events, ps))
    ensures NoAlarm(run, alarm, ps, a)
    ensures denom(RunAll(run, ps, a)).balance == denom(a).balance + Net(AllEvents(events, ps))
    ensures denom(RunAll(run, ps, a)).loss == denom(a).loss
    decreases |ps|
  {
    if ps != [] {
      var mine, rest := events(ps[0]), AllEvents(events, ps[1..]);
      NeverNegativeAppend(denom(a).balance, mine, rest);
      NetAppend(mine, rest);
      QuietForever(run, regular, alarm, events, denom, ps[1..], run(ps[0], a));
    }
  }

  function RunOf(): (Period, Stored) -> Stored {
    (p: Period, a: Stored) => RunOnce(p.x, a)
  }

  function AlarmOf(h: Hash): (Period, Stored) -> bool {
    (p: Period, a: Stored) =>
      var out := Analyze(p.x.env, p.x.now, p.x.tables, p.x.order, a);
      out.Abort? || h in out.st.emergencies
  }

  function EventsOn(h: Hash): Period -> History {
    (p: Period) => EventsOf(DeltaOf(p.x.env, h), p.rows)
  }

  function DenomOf(h: Hash): Stored -> Denom {
    (a: Stored) => LookupDenom(a.db, h)
  }

  ghost function RegularFor(h: Hash): (Period, Stored) -> bool {
    (p: Period, a: Stored) => Regular(p, a, h)
  }

  lemma {:induction false} LandedIsStored(x: Attempt, a: Stored, out: Outcome)
    requires Landed(x, out)
    ensures Conclude(x, a, out) == Store(out.st)
  {
  }

  /** What one committed run over a history that is never in deficit leaves of `h`. */
  ghost predicate StaysQuiet(p: Period, a: Stored, h: Hash) {
    var b := RunOnce(p.x, a);
    && !AlarmOf(h)(p, a)
    && LookupDenom(b.db, h).balance == LookupDenom(a.db, h).balance + Net(EventsOn(h)(p))
    && LookupDenom(b.db, h).loss == LookupDenom(a.db, h).loss
  }

  lemma {:induction false} OnePeriodQuiet(p: Period, a: Stored, h: Hash)
    ensures Regular(p, a, h) && NeverNegative(LookupDenom(a.db, h).balance, EventsOn(h)(p)) ==> StaysQuiet(p, a, h)
  {
    if Regular(p, a, h) && NeverNegative(LookupDenom(a.db, h).balance, EventsOn(h)(p)) {
      NoFalseAlarm(p.x, a, p.rows, h);
      LandedIsStored(p.x, a, Analyze(p.x.env, p.x.now, p.x.tables, p.x.order, a));
    }
  }

  /**
   * No false alarm, ever: over any number of committed runs, if the outstanding value of `h`
   * never went below zero, no run dies or reports an emergency for `h`, no loss is booked,
   * and the stored balance is the outstanding value.
   */
  lemma {:induction false} NoFalseAlarmEver(ps: seq<Period>, a: Stored, h: Hash)
    requires AllRegular(RunOf(), RegularFor(h), ps, a)
    requires NeverNegative(LookupDenom(a.db, h).balance, AllEvents(EventsOn(h), ps))
    ensures NoAlarm(RunOf(), AlarmOf(h), ps, a)
    ensures var before, after := LookupDenom(a.db, h), LookupDenom(RunAll(RunOf(), ps, a).db, h);
      && after.balance == before.balance + Net(AllEvents(EventsOn(h), ps))
      && after.loss == before.loss
  {
    forall p, s | RegularFor(h)(p, s) && NeverNegative(DenomOf(h)(s).balance, EventsOn(h)(p))
      ensures !AlarmOf(h)(p, s)
      ensures DenomOf(h)(RunOf()(p, s)).balance == DenomOf(h)(s).balance + Net(EventsOn(h)(p))
      ensures DenomOf(h)(RunOf()(p, s)).loss == DenomOf(h)(s).loss
    {
      OnePeriodQuiet(p, s, h);
    }
    QuietForever(RunOf(), RegularFor(h), AlarmOf(h), EventsOn(h), DenomOf(h), ps, a);
  }

  /**
   * Why every melt has to be revealed by the time it is audited: one that is not changes no
   * denomination, yet the checkpoint moves past it, so its new coins are never credited.
   */
  lemma {:induction false} HangingMeltIsForgotten(env: Env, st: State, row: Row)
    requires row.Melt? && row.newCoins == [] && row.id >= NextId(st.progress, KMelt)
    ensures var out := Step(env, st, row);
      && out.Next?
      && out.st == st.(progress := out.st.progress, income := out.st.income)
      && NextId(out.st.progress, KMelt) > row.id
  {
  }
}
