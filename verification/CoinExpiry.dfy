/** What the write-back keeps and what it retires, and when. */
module CoinExpiry {
  import opened CoinLedger
  import opened CoinRows
  import opened CoinRuns
  import opened CoinIncome
  import opened CoinCounts
  import opened CoinReplay

  /**
   * Writing back one record.  It is retired exactly if its denomination is known and more than a day,
   * in microseconds, has passed since its deposits expired: then it leaves the database, its risk is
   * released, what it holds goes to the books, and no alarm is raised.  Otherwise it is stored, with
   * its alarms, and nothing else changes.
   */
  lemma {:induction false} SyncOneExactly(env: Env, now: nat, st: State, h: Hash)
    requires Balanced(st) && h in st.mem
    ensures var out, s := SyncOne(env, now, st, h), st.mem[h];
      && out.Next? && out.st.mem == st.mem - {h}
      && out.st.progress == st.progress && out.st.income == st.income
      && if h in env.issues && now > env.issues[h].expireDeposit + 86_400_000_000 then
           && out.st.db == st.db - {h}
           && out.st.totals == st.totals.(risk := out.st.totals.risk)
           && out.st.totals.risk + s.denom.risk == st.totals.risk
           && Retired(st.books, out.st.books, s.denom)
           && out.st.emergencies == st.emergencies && out.st.countEmergencies == st.countEmergencies
         else
           && out.st.db == st.db[h := s.denom] && out.st.totals == st.totals && out.st.books == st.books
           && out.st.emergencies == st.emergencies + (if s.emergency then {h} else {})
           && out.st.countEmergencies == st.countEmergencies
                + (if h in env.coinsSeen && env.coinsSeen[h] > s.denom.issued then {h} else {})
  {
    SyncOneKeepsBalanced(env, now, st, h);
  }

  /** The books have taken over what a denomination held, and are otherwise the same. */
  predicate Retired(b: Books, b': Books, d: Denom) {
    && b'.revenue == b.revenue + d.balance && b'.lossAtExpiry == b.lossAtExpiry + d.loss
    && b'.recoupAtExpiry == b.recoupAtExpiry + d.recoup && b'.coinsAtExpiry == b.coinsAtExpiry + d.issued
    && b'.unsubtracted == b.unsubtracted && b'.recoupCredits == b.recoupCredits && b'.coins == b.coins
  }

  /** Some row that the run hands out changes the record of `h`. */
  ghost predicate Touched(x: Attempt, a: Stored, h: Hash) {
    AnyTable(TableHit(x.env, x.tables, Touches(x.env, h)), a.progress)
  }

  /**
   * A whole run.  A denomination that it touches is kept, with its alarms, if and only if no more
   * than a day has passed since its deposits expired, and retired without alarm otherwise.  One that
   * it does not touch stays as it is, expired or not.
   */
  lemma {:induction false} KeptExactly(x: Attempt, a: Stored, h: Hash)
    requires StoredBalanced(a) && WellFormed(x.tables) && Plausible(x, a)
    ensures var scanned, out :=
        ScanTables(CallbackOf(x.env), x.tables, Begin(a)), Analyze(x.env, x.now, x.tables, x.order, a);
      !out.Abort? ==>
        && !scanned.Abort? && (h in scanned.st.mem <==> Touched(x, a, h))
        && (Touched(x, a, h) ==>
              && h in x.env.issues
              && (h in out.st.db <==> x.now <= x.env.issues[h].expireDeposit + 86_400_000_000)
              && (h in out.st.db ==> out.st.db[h] == scanned.st.mem[h].denom)
              && (h in out.st.emergencies <==> h in out.st.db && scanned.st.mem[h].emergency)
              && (h in out.st.countEmergencies <==>
                    && h in out.st.db && h in x.env.coinsSeen
                    && x.env.coinsSeen[h] > scanned.st.mem[h].denom.issued))
        && (!Touched(x, a, h) ==>
              && (h in out.st.db <==> h in a.db) && (h in a.db ==> out.st.db[h] == a.db[h])
              && h !in out.st.emergencies && h !in out.st.countEmergencies)
  {
    var st := Begin(a);
    var scanned := ScanTables(CallbackOf(x.env), x.tables, st);
    ScanTablesCount(x.env, x.tables, st, h);
    ScanTablesKeepsBalanced(x.env, x.tables, st);
    ScanTablesKeepsReports(x.env, x.tables, st);
    ScanTablesKeepsDb(x.env, x.tables, st);
    if !scanned.Abort? {
      SyncAt(x.env, x.now, scanned.st, x.order, h);
      if Touched(x, a, h) {
        TouchedIsKnown(x, a, h);
      }
    }
  }

  lemma {:induction false} TouchedIsKnown(x: Attempt, a: Stored, h: Hash)
    requires Touched(x, a, h)
    ensures h in x.env.issues
  {
    var k :| TableHit(x.env, x.tables, Touches(x.env, h))(k, NextId(a.progress, k));
    RowsTouchKnown(x.env, HandedFrom(x.env, x.tables, k, NextId(a.progress, k)), h);
  }

  lemma {:induction false} RowsTouchKnown(env: Env, rows: seq<Row>, h: Hash)
    requires AnyOf(rows, Touches(env, h))
    ensures h in env.issues
  {
    var row :| row in rows && Touches(env, h)(row);
  }
}
