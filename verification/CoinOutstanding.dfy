/** The stored balance of a denomination against its outstanding value by the tables, melts revealed late included. */
module CoinOutstanding {
  import opened Sums
  import opened CoinLedger
  import opened CoinRows
  import opened CoinRuns
  import opened CoinIncome
  import opened CoinReplay

  // ----- one run -----

  /** Balance less loss: a debit takes its amount off one or adds it to the other. */
  function NetOfDenom(h: Hash): Getter { (st: State) => NetOf(Load(st, h).denom) }

  lemma {:induction false} StepNet(env: Env, st: State, row: Row, h: Hash)
    requires !Step(env, st, row).Abort?
    ensures NetOf(Load(Step(env, st, row).st, h).denom) == NetOf(Load(st, h).denom) + RowValue(env, row, h)
  {
    RowEffect(env, st, row, h);
  }

  lemma {:induction false} CallbackAddsDelta(env: Env, h: Hash)
    ensures Adds(CallbackOf(env), NetOfDenom(h), DeltaOf(env, h))
  {
    var cb := CallbackOf(env);
    forall st, row | !cb(st, row).Abort?
      ensures NetOfDenom(h)(cb(st, row).st) == NetOfDenom(h)(st) + DeltaOf(env, h)(row)
    {
      StepNet(env, st, row, h);
    }
  }

  function SixKinds(f: Kind -> int): int {
    f(KWithdraw) + f(KRefund) + f(KRecoupRefresh) + f(KRecoup) + f(KMelt) + f(KDeposit)
  }

  lemma {:induction false} SixKindsAdd(f: Kind -> int, g: Kind -> int, h: Kind -> int)
    requires forall k :: h(k) == f(k) + g(k)
    ensures SixKinds(h) == SixKinds(f) + SixKinds(g)
  {
  }

  lemma {:induction false} SixKindsSame(f: Kind -> int, g: Kind -> int)
    requires forall k :: f(k) == g(k)
    ensures SixKinds(f) == SixKinds(g)
  {
  }

  type Hander = (Attempt, Stored, Kind) -> seq<Row>

  /** What the rows handed out in one run are worth, table by table. */
  function WorthIn(handed: Hander, x: Attempt, a: Stored, gain: Row -> int): Kind -> int {
    (k: Kind) => Sum(handed(x, a, k), gain)
  }

  function TableWorth(x: Attempt, p: Progress, gain: Row -> int): Kind -> int {
    (k: Kind) => Sum(HandedFrom(x.env, x.tables, k, NextId(p, k)), gain)
  }

  function AtCheckpoints(total: (Kind, nat) -> int, p: Progress): Kind -> int { (k: Kind) => total(k, NextId(p, k)) }

  lemma {:induction false} AllTablesBySix(total: (Kind, nat) -> int, p: Progress)
    ensures AllTables(total, p) == SixKinds(AtCheckpoints(total, p))
  {
    var f := AtCheckpoints(total, p);
    assert NextId(p, KWithdraw) == p.withdraw && NextId(p, KRefund) == p.refund;
    assert NextId(p, KRecoupRefresh) == p.recoupRefresh && NextId(p, KRecoup) == p.recoup;
    assert NextId(p, KMelt) == p.melt && NextId(p, KDeposit) == p.deposit;
    assert f(KWithdraw) == total(KWithdraw, p.withdraw) && f(KRefund) == total(KRefund, p.refund);
    assert f(KRecoupRefresh) == total(KRecoupRefresh, p.recoupRefresh) && f(KRecoup) == total(KRecoup, p.recoup);
    assert f(KMelt) == total(KMelt, p.melt) && f(KDeposit) == total(KDeposit, p.deposit);
  }

  lemma {:induction false} TablesBySix(x: Attempt, p: Progress, gain: Row -> int)
    ensures AllTables(TableTotal(x.env, x.tables, gain), p) == SixKinds(TableWorth(x, p, gain))
  {
    var total := TableTotal(x.env, x.tables, gain);
    AllTablesBySix(total, p);
    SixKindsSame(AtCheckpoints(total, p), TableWorth(x, p, gain));
  }

  function NetStored(h: Hash): Stored -> int { (a: Stored) => NetOf(LookupDenom(a.db, h)) }

  /** The run sees proper tables, its write-back is possible, and `h` has not expired. */
  ghost predicate Usual(h: Hash, x: Attempt, a: Stored) {
    WellFormed(x.tables) && Plausible(x, a) && !Expired(x.env, x.now, h)
  }

  lemma {:induction false} AnalyzeNet(x: Attempt, a: Stored, h: Hash)
    requires Usual(h, x, a) && StoredBalanced(a)
    ensures var out := Analyze(x.env, x.now, x.tables, x.order, a);
      !out.Abort? ==>
        NetStored(h)(Store(out.st)) == NetStored(h)(a) + SixKinds(TableWorth(x, a.progress, DeltaOf(x.env, h)))
  {
    var st, delta := Begin(a), DeltaOf(x.env, h);
    CallbackAddsDelta(x.env, h);
    ScanTablesAdds(x.env, x.tables, NetOfDenom(h), delta, st);
    TablesBySix(x, a.progress, delta);
    ScanTablesKeepsBalanced(x.env, x.tables, st);
    ScanTablesKeepsDb(x.env, x.tables, st);
    var scanned := ScanTables(CallbackOf(x.env), x.tables, st);
    if !scanned.Abort? {
      SyncAt(x.env, x.now, scanned.st, x.order, h);
    }
  }

  lemma {:induction false} ConcludeAdds(x: Attempt, a: Stored, out: Outcome, value: Stored -> int, worth: int)
    requires !out.Abort? ==> value(Store(out.st)) == value(a) + worth
    ensures value(Conclude(x, a, out)) == value(a) + if Landed(x, out) then worth else 0
  {
  }

  lemma {:induction false} HandedWorth(x: Attempt, a: Stored, out: Outcome, handed: Hander, gain: Row -> int)
    requires forall k :: handed(x, a, k) == if Landed(x, out) then HandedIfLanded(x, a, k) else []
    ensures SixKinds(WorthIn(handed, x, a, gain))
      == if Landed(x, out) then SixKinds(TableWorth(x, a.progress, gain)) else 0
  {
    var worth := WorthIn(handed, x, a, gain);
    if Landed(x, out) {
      SixKindsSame(worth, TableWorth(x, a.progress, gain));
    } else {
      SixKindsSame(worth, (k: Kind) => 0);
    }
  }

  /** A run adds to balance less loss what the rows it has handed out are worth, alarm or no alarm. */
  lemma {:induction false} RunNet(x: Attempt, a: Stored, h: Hash)
    requires Usual(h, x, a) && StoredBalanced(a)
    ensures NetStored(h)(RunOnce(x, a)) == NetStored(h)(a) + SixKinds(WorthIn(HandedRows, x, a, DeltaOf(x.env, h)))
  {
    var out := Analyze(x.env, x.now, x.tables, x.order, a);
    AnalyzeNet(x, a, h);
    ConcludeAdds(x, a, out, NetStored(h), SixKinds(TableWorth(x, a.progress, DeltaOf(x.env, h))));
    HandedWorth(x, a, out, HandedRows, DeltaOf(x.env, h));
  }

  // ----- any number of runs -----

  ghost predicate GrowsBy(
    run: Runner, handed: Hander, value: Stored -> int, gain: Env -> Row -> int, ok: (Attempt, Stored) -> bool)
  {
    forall x: Attempt, s: Stored {:trigger run(x, s)} | ok(x, s) ::
      value(run(x, s)) == value(s) + SixKinds(WorthIn(handed, x, s, gain(x.env)))
  }

  function WorthOver(run: Runner, handed: Hander, gain: Env -> Row -> int, xs: seq<Attempt>, a: Stored): Kind -> int {
    (k: Kind) => WorthOfHanded(run, handed, gain, xs, a, k)
  }

  lemma {:induction false} GrowsOverRuns(
    run: Runner, handed: Hander, value: Stored -> int, gain: Env -> Row -> int, ok: (Attempt, Stored) -> bool,
    xs: seq<Attempt>, a: Stored)
    requires GrowsBy(run, handed, value, gain, ok) && AllPlausible(run, ok, xs, a)
    ensures value(RunMany(run, xs, a)) == value(a) + SixKinds(WorthOver(run, handed, gain, xs, a))
    decreases |xs|
  {
    if xs == [] {
      assert forall k :: WorthOver(run, handed, gain, xs, a)(k) == 0;
    } else {
      var b := run(xs[0], a);
      GrowsOverRuns(run, handed, value, gain, ok, xs[1..], b);
      SixKindsAdd(WorthIn(handed, xs[0], a, gain(xs[0].env)), WorthOver(run, handed, gain, xs[1..], b),
                  WorthOver(run, handed, gain, xs, a));
    }
  }

  /** An invariant may be added to what is known of every run. */
  lemma {:induction false} PlausibleWith(
    run: Runner, plausible: (Attempt, Stored) -> bool, inv: Stored -> bool, both: (Attempt, Stored) -> bool,
    xs: seq<Attempt>, a: Stored)
    requires forall x, s | plausible(x, s) && inv(s) :: inv(run(x, s)) && both(x, s)
    requires inv(a) && AllPlausible(run, plausible, xs, a)
    ensures AllPlausible(run, both, xs, a)
    decreases |xs|
  {
    if xs != [] {
      PlausibleWith(run, plausible, inv, both, xs[1..], run(xs[0], a));
    }
  }

  ghost function UsualFor(h: Hash): (Attempt, Stored) -> bool { (x: Attempt, a: Stored) => Usual(h, x, a) }

  ghost function BalancedFor(h: Hash): (Attempt, Stored) -> bool {
    (x: Attempt, a: Stored) => Usual(h, x, a) && StoredBalanced(a)
  }

  function DeltaIn(h: Hash): Env -> Row -> int { (env: Env) => DeltaOf(env, h) }

  lemma {:induction false} RunsGrow(h: Hash)
    ensures GrowsBy(RunOnce, HandedRows, NetStored(h), DeltaIn(h), BalancedFor(h))
  {
    forall x: Attempt, s: Stored | BalancedFor(h)(x, s)
      ensures NetStored(h)(RunOnce(x, s)) == NetStored(h)(s) + SixKinds(WorthIn(HandedRows, x, s, DeltaIn(h)(x.env)))
    {
      RunNet(x, s, h);
    }
  }

  lemma {:induction false} StartsBalanced()
    ensures StoredBalanced(FIRST_TIME)
  {
    assert View(Begin(FIRST_TIME)) == map[];
  }

  lemma {:induction false} NetOfRuns(xs: seq<Attempt>, h: Hash)
    requires AllPlausible(RunOnce, UsualFor(h), xs, FIRST_TIME)
    ensures NetStored(h)(Reached(xs)) == SixKinds(WorthOver(RunOnce, HandedRows, DeltaIn(h), xs, FIRST_TIME))
  {
    StartsBalanced();
    forall x, s | UsualFor(h)(x, s) && StoredBalanced(s)
      ensures StoredBalanced(RunOnce(x, s)) && BalancedFor(h)(x, s)
    {
      RunOnceKeepsBalanced(x, s);
    }
    PlausibleWith(RunOnce, UsualFor(h), StoredBalanced, BalancedFor(h), xs, FIRST_TIME);
    RunsGrow(h);
    GrowsOverRuns(RunOnce, HandedRows, NetStored(h), DeltaIn(h), BalancedFor(h), xs, FIRST_TIME);
  }

  // ----- by the tables -----

  function ShownWorth(xs: seq<Attempt>, gain: Row -> int): Kind -> int
    requires xs != []
  {
    (k: Kind) => Sum(ShownNow(xs, k), gain)
  }

  /** The outstanding value of `h` by the rows below the checkpoints, as the tables show them now. */
  function Outstanding(xs: seq<Attempt>, env: Env, h: Hash): int
    requires xs != []
  {
    SixKinds(ShownWorth(xs, DeltaOf(env, h)))
  }

  /** What melts revealed after they were handed out add to the outstanding value of `h`. */
  ghost function RevealedLate(xs: seq<Attempt>, env: Env, h: Hash): int
    requires xs != [] && Growing(xs)
  {
    ShownRows(xs, KMelt);
    LateWorth(HandedOver(xs, KMelt), ShownNow(xs, KMelt), DeltaOf(env, h))
  }

  function LearntByKind(xs: seq<Attempt>, env: Env, h: Hash): Kind -> int {
    (k: Kind) => LearntLate(xs, env, DeltaIn(h), k)
  }

  /** What the rows handed out add to the outstanding value of `h` by `env`, beyond what their runs knew. */
  function LearntWorth(xs: seq<Attempt>, env: Env, h: Hash): int { SixKinds(LearntByKind(xs, env, h)) }

  lemma {:induction false} WorthByTable(xs: seq<Attempt>, env: Env, h: Hash, k: Kind)
    requires xs != [] && Growing(xs)
    ensures Sum(ShownNow(xs, k), DeltaOf(env, h))
      == WorthOfHanded(RunOnce, HandedRows, DeltaIn(h), xs, FIRST_TIME, k) + LearntLate(xs, env, DeltaIn(h), k)
         + if k == KMelt then RevealedLate(xs, env, h) else 0
  {
    ShownRows(xs, k);
    WorthThenLearnt(RunOnce, HandedRows, DeltaIn(h), xs, FIRST_TIME, k, env);
    WorthThenAndNow(HandedOver(xs, k), ShownNow(xs, k), DeltaOf(env, h));
    if k != KMelt {
      NothingLate(HandedOver(xs, k), ShownNow(xs, k), DeltaOf(env, h));
    }
  }

  /**
   * Over any number of runs from the first one on, failed and alarming ones included, whatever each
   * run knows: what is stored of an unexpired denomination, balance less loss, is its outstanding
   * value by the rows below the checkpoints, less what was revealed only after it had been handed
   * out, and less what the runs that got the rows did not know of.
   */
  lemma {:induction false} OutstandingExactly(xs: seq<Attempt>, env: Env, h: Hash)
    requires xs != [] && Growing(xs) && AllPlausible(RunOnce, UsualFor(h), xs, FIRST_TIME)
    ensures NetStored(h)(Reached(xs)) == Outstanding(xs, env, h) - RevealedLate(xs, env, h) - LearntWorth(xs, env, h)
  {
    NetOfRuns(xs, h);
    WorthByTables(xs, env, h);
  }

  lemma {:induction false} WorthByTables(xs: seq<Attempt>, env: Env, h: Hash)
    requires xs != [] && Growing(xs)
    ensures Outstanding(xs, env, h)
      == SixKinds(WorthOver(RunOnce, HandedRows, DeltaIn(h), xs, FIRST_TIME))
         + LearntWorth(xs, env, h) + RevealedLate(xs, env, h)
  {
    var now, handed := ShownWorth(xs, DeltaOf(env, h)), WorthOver(RunOnce, HandedRows, DeltaIn(h), xs, FIRST_TIME);
    var learnt := LearntByKind(xs, env, h);
    forall k ensures now(k) == handed(k) + learnt(k) + if k == KMelt then RevealedLate(xs, env, h) else 0 {
      WorthByTable(xs, env, h, k);
    }
    SixKindsMore(now, handed, learnt, RevealedLate(xs, env, h));
  }

  lemma {:induction false} SixKindsMore(f: Kind -> int, g: Kind -> int, l: Kind -> int, more: int)
    requires forall k :: f(k) == g(k) + l(k) + if k == KMelt then more else 0
    ensures SixKinds(f) == SixKinds(g) + SixKinds(l) + more
  {
  }

  /** Nothing was learnt late if every row handed out added to `h` what it adds by `env`. */
  lemma {:induction false} NothingLearntWorth(xs: seq<Attempt>, env: Env, h: Hash)
    requires forall k :: KnownInTime(xs, env, DeltaIn(h), k)
    ensures LearntWorth(xs, env, h) == 0
  {
    forall k ensures LearntByKind(xs, env, h)(k) == 0 {
      assert KnownInTime(xs, env, DeltaIn(h), k);
      NothingLearnt(RunOnce, HandedRows, DeltaIn(h), xs, FIRST_TIME, k, env);
    }
  }

  /** So it is while the known denominations stay the same, whatever else changes between runs. */
  lemma {:induction false} OutstandingWithSameKeys(xs: seq<Attempt>, env: Env, h: Hash)
    requires xs != [] && Growing(xs) && AllPlausible(RunOnce, UsualFor(h), xs, FIRST_TIME)
    requires forall x | x in xs :: x.env.issues == env.issues
    ensures NetStored(h)(Reached(xs)) == Outstanding(xs, env, h) - RevealedLate(xs, env, h)
  {
    forall k ensures KnownInTime(xs, env, DeltaIn(h), k) {
      forall x, row | x in xs ensures DeltaIn(h)(x.env)(row) == DeltaIn(h)(env)(row) {
        DeltaByKeys(x.env, env, row, h);
      }
      AsKnownAlways(RunOnce, HandedRows, DeltaIn(h), xs, FIRST_TIME, k, env);
    }
    NothingLearntWorth(xs, env, h);
    OutstandingExactly(xs, env, h);
  }

  lemma {:induction false} DeltaByKeys(was: Env, env: Env, row: Row, h: Hash)
    requires was.issues == env.issues
    ensures RowValue(was, row, h) == RowValue(env, row, h)
  {
    if row.Melt? {
      SumSame(row.newCoins, WorthTo(was, h), WorthTo(env, h));
    }
  }

  /** A late reveal raises the outstanding value of its new coins' denominations, except that of the melted coin. */
  lemma {:induction false} NewCoinsRaise(xs: seq<Attempt>, env: Env, h: Hash)
    requires xs != [] && Growing(xs)
    requires forall row | row in ShownNow(xs, KMelt) :: row.Melt? ==> row.h != h
    ensures RevealedLate(xs, env, h) >= 0
  {
    var handed, now := HandedOver(xs, KMelt), ShownNow(xs, KMelt);
    ShownRows(xs, KMelt);
    forall i | 0 <= i < |now| ensures DeltaOf(env, h)(handed[i]) <= DeltaOf(env, h)(now[i]) {
      assert now[i] in now;
      RevealRaises(env, handed[i], now[i], h);
    }
    LateWorthExactly(handed, now, DeltaOf(env, h));
  }

  lemma {:induction false} RevealRaises(env: Env, was: Row, row: Row, h: Hash)
    requires Earlier(was, row) && (row.Melt? ==> row.h != h)
    ensures RowValue(env, was, h) <= RowValue(env, row, h)
  {
    if row.Melt? {
      SumNonNegative(row.newCoins, WorthTo(env, h));
    }
  }

  /** A history from the first run on, which ends with `b` stored and in which `h` has not expired. */
  ghost predicate Leads(xs: seq<Attempt>, b: Stored, h: Hash) {
    && xs != [] && Growing(xs)
    && AllPlausible(RunOnce, UsualFor(h), xs, FIRST_TIME) && b == Reached(xs)
  }

  /** What the auditor takes to be outstanding: what is, less what was revealed or learnt late, plus losses before. */
  ghost function Believed(xs: seq<Attempt>, env: Env, b: Stored, h: Hash): int
    requires Leads(xs, b, h)
  {
    Outstanding(xs, env, h) - RevealedLate(xs, env, h) - LearntWorth(xs, env, h) + LookupDenom(b.db, h).loss
  }

  lemma {:induction false} BalanceIsBelieved(xs: seq<Attempt>, env: Env, b: Stored, h: Hash)
    requires Leads(xs, b, h)
    ensures LookupDenom(b.db, h).balance == Believed(xs, env, b, h)
  {
    OutstandingExactly(xs, env, h);
  }

  /** The run reports an emergency by amount for `h`. */
  predicate Alarms(x: Attempt, b: Stored, h: Hash) {
    var out := Analyze(x.env, x.now, x.tables, x.order, b);
    out.Next? && h in out.st.emergencies
  }

  lemma {:induction false} AlarmFrom(x: Attempt, b: Stored, rows: seq<Row>, h: Hash)
    requires OrdinaryRun(x, b, rows) && !Expired(x.env, x.now, h)
    ensures Alarms(x, b, h) <==> !LooksSafe(LookupDenom(b.db, h).balance, EventsOf(DeltaOf(x.env, h), rows))
  {
    AlarmExactly(x, b, rows, h);
  }

  /**
   * What a late reveal, or a denomination that becomes known late, does to the alarm.  After any
   * such runs, the next run over ordinary rows reports an emergency for `h` exactly when the replay
   * looks unsafe from a value that falls short of the outstanding one by what was revealed or learnt
   * late (and exceeds it by losses booked before).
   */
  lemma {:induction false} LateRevealShiftsAlarm(
    xs: seq<Attempt>, env: Env, b: Stored, x: Attempt, rows: seq<Row>, h: Hash)
    requires Leads(xs, b, h) && OrdinaryRun(x, b, rows) && !Expired(x.env, x.now, h)
    ensures Alarms(x, b, h) <==> !LooksSafe(Believed(xs, env, b, h), EventsOf(DeltaOf(x.env, h), rows))
  {
    BalanceIsBelieved(xs, env, b, h);
    AlarmFrom(x, b, rows, h);
  }
}
