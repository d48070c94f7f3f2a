/** The coin auditor's second alarm: more coins of a denomination seen than were ever issued. */
module CoinCounts {
  import opened CoinLedger
  import opened CoinRows
  import opened CoinRuns
  import opened CoinIncome

  function IssuedTo(h: Hash): Getter { (st: State) => Load(st, h).denom.issued }

  lemma {:induction false} ApplyAllTouches(st: State, ms: seq<Move>, h: Hash)
    ensures h in ApplyAll(st, ms).mem <==> h in st.mem || exists m | m in ms :: m.h == h
    decreases |ms|
  {
    if ms != [] {
      ApplyAllTouches(Apply(st, ms[0]), ms[1..], h);
      assert ms == [ms[0]] + ms[1..];
    }
  }

  lemma {:induction false} StepCounts(env: Env, st: State, row: Row, h: Hash)
    requires !Step(env, st, row).Abort?
    ensures var st' := Step(env, st, row).st;
      && Load(st', h).denom.issued == Load(st, h).denom.issued + CoinsIssued(env, h)(row)
      && (h in st'.mem <==> h in st.mem || Touches(env, h)(row))
  {
    RowEffect(env, st, row, h);
    ApplyAllTouches(Pass(env, st, row), Moves(env, row), h);
    TouchedBy(env, row, h);
  }

  // ----- which records a run touches -----

  ghost predicate Marks(cb: Callback, h: Hash, touches: Row -> bool) {
    forall st, row {:trigger cb(st, row)} | !cb(st, row).Abort? ::
      h in cb(st, row).st.mem <==> h in st.mem || touches(row)
  }

  predicate AnyOf(rows: seq<Row>, touches: Row -> bool) { exists row | row in rows :: touches(row) }

  lemma {:induction false} ScanMarks(env: Env, cb: Callback, h: Hash, touches: Row -> bool, st: State, rows: seq<Row>)
    requires Checkpoints(env, cb) && Marks(cb, h, touches)
    ensures var out := Scan(cb, st, rows);
      !out.Abort? ==> (h in out.st.mem <==> h in st.mem || AnyOf(rows[..Handed(env, rows)], touches))
    decreases |rows|
  {
    if rows != [] {
      var n := Handed(env, rows);
      var out := cb(st, rows[0]);
      assert rows[..n] == [rows[0]] + rows[1..][..n - 1];
      if out.Next? {
        ScanMarks(env, cb, h, touches, out.st, rows[1..]);
      }
    }
  }

  function TableHit(env: Env, t: Tables, touches: Row -> bool): (Kind, nat) -> bool {
    (k: Kind, n: nat) => AnyOf(HandedFrom(env, t, k, n), touches)
  }

  ghost predicate AnyTable(hit: (Kind, nat) -> bool, p: Progress) { exists k :: hit(k, NextId(p, k)) }

  ghost predicate ScanMarksUp(scan: TableScan, h: Hash, hit: (Kind, nat) -> bool) {
    forall st, k {:trigger scan(st, k)} | !scan(st, k).Abort? ::
      h in scan(st, k).st.mem <==> h in st.mem || hit(k, NextId(st.progress, k))
  }

  lemma {:induction false} InTableOrderMarks(
    scan: TableScan, next: (Kind, nat) -> nat, h: Hash, hit: (Kind, nat) -> bool, st: State)
    requires MovesOwnCheckpoint(scan, next) && ScanMarksUp(scan, h, hit)
    ensures var out := InTableOrder(scan, st);
      !out.Abort? ==> (h in out.st.mem <==> h in st.mem || AnyTable(hit, st.progress))
  {
    var p := st.progress;
    assert AnyTable(hit, p) <==>
      || hit(KWithdraw, NextId(p, KWithdraw)) || hit(KRefund, NextId(p, KRefund))
      || hit(KRecoupRefresh, NextId(p, KRecoupRefresh)) || hit(KRecoup, NextId(p, KRecoup))
      || hit(KMelt, NextId(p, KMelt)) || hit(KDeposit, NextId(p, KDeposit));
  }

  lemma {:induction false} ScanTablesCount(env: Env, t: Tables, st: State, h: Hash)
    requires WellFormed(t)
    ensures var out := ScanTables(CallbackOf(env), t, st);
      !out.Abort? ==>
        && Load(out.st, h).denom.issued
           == Load(st, h).denom.issued + AllTables(TableTotal(env, t, CoinsIssued(env, h)), st.progress)
        && (h in out.st.mem <==> h in st.mem || AnyTable(TableHit(env, t, Touches(env, h)), st.progress))
  {
    var cb, hit, touches := CallbackOf(env), TableHit(env, t, Touches(env, h)), Touches(env, h);
    forall st, row | !cb(st, row).Abort?
      ensures IssuedTo(h)(cb(st, row).st) == IssuedTo(h)(st) + CoinsIssued(env, h)(row)
      ensures h in cb(st, row).st.mem <==> h in st.mem || touches(row)
    {
      StepCounts(env, st, row, h);
    }
    ScanTablesAdds(env, t, IssuedTo(h), CoinsIssued(env, h), st);
    CallbackCheckpoints(env);
    TableScanMovesOwnCheckpoint(env, cb, t);
    var scan := TableScanOf(cb, t);
    forall st, k | !scan(st, k).Abort?
      ensures h in scan(st, k).st.mem <==> h in st.mem || hit(k, NextId(st.progress, k))
    {
      ScanMarks(env, cb, h, touches, st, Above(RowsOf(t, k), NextId(st.progress, k)));
    }
    InTableOrderMarks(scan, NextCheckpointOf(env, t), h, hit, st);
  }

  /**
   * The alarm by count: a run reports an unexpired denomination exactly when some row it hands out
   * changes that denomination's record and the exchange has seen more of its coins than were
   * issued before and during the run.  Denominations without new rows are not looked at.
   */
  lemma {:induction false} CountAlarmExactly(x: Attempt, a: Stored, h: Hash)
    requires StoredBalanced(a) && WellFormed(x.tables) && Plausible(x, a) && !Expired(x.env, x.now, h)
    ensures var out := Analyze(x.env, x.now, x.tables, x.order, a);
      !out.Abort? ==>
        (h in out.st.countEmergencies <==>
          && AnyTable(TableHit(x.env, x.tables, Touches(x.env, h)), a.progress)
          && h in x.env.coinsSeen
          && x.env.coinsSeen[h] > LookupDenom(a.db, h).issued
               + AllTables(TableTotal(x.env, x.tables, CoinsIssued(x.env, h)), a.progress))
  {
    var st := Begin(a);
    var scanned := ScanTables(CallbackOf(x.env), x.tables, st);
    ScanTablesCount(x.env, x.tables, st, h);
    ScanTablesKeepsBalanced(x.env, x.tables, st);
    ScanTablesKeepsReports(x.env, x.tables, st);
    if !scanned.Abort? {
      SyncAt(x.env, x.now, scanned.st, x.order, h);
    }
  }

  /** No emergency is reported before the write-back. */
  lemma {:induction false} ScanTablesKeepsReports(env: Env, t: Tables, st: State)
    ensures var out := ScanTables(CallbackOf(env), t, st);
      !out.Abort? ==> out.st.countEmergencies == st.countEmergencies
  {
    var cb, em := CallbackOf(env), st.countEmergencies;
    var inv := (s: State) => s.countEmergencies == em;
    forall s, row | inv(s) && !cb(s, row).Abort? ensures inv(cb(s, row).st) {
      ApplyAllFrame(Pass(env, s, row), Moves(env, row));
    }
    ScanTablesKeeps(cb, inv, t, st);
  }
}
