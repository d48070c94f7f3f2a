/** When the coin auditor cannot take a debit off the escrow, and that only
    losses and uncovered credits can lead there. */
module CoinEscrow {
  import opened Sums
  import opened CoinLedger
  import opened CoinRuns

  /**
   * A debit exceeds the escrow exactly when the other denominations, what was retired and what could
   * not be subtracted before come to less than the losses retired, the recoup-refresh credits that
   * never reached the escrow, and what the debit takes beyond its own denomination.
   */
  lemma {:induction false} EscrowShortExactly(st: State, h: Hash, amount: nat)
    requires Balanced(st)
    ensures Apply(st, Spend(h, amount)).books.unsubtracted > st.books.unsubtracted <==>
      Total(View(st) - {h}, NetOf) + st.books.revenue + st.books.unsubtracted
        < st.books.lossAtExpiry + st.books.recoupCredits + (amount - NetOf(Load(st, h).denom))
  {
    NetWithout(View(st), h);
    ViewShows(st, h);
  }

  lemma {:induction false} NetWithout(v: map<Hash, Denom>, h: Hash)
    ensures Total(v, NetOf) == At(v, h, NetOf) + Total(v - {h}, NetOf)
  {
    TotalDrop(v, h, NetOf);
  }

  /** No denomination, tracked or retired, has a loss, and no recoup-refresh was credited. */
  ghost predicate Lossless(v: map<Hash, Denom>, b: Books) {
    (forall h | h in v :: v[h].loss == 0) && b.lossAtExpiry == 0 && b.recoupCredits == 0
  }

  /** Balanced, and without losses and credits everything was subtracted from the escrow. */
  ghost predicate Clean(st: State) {
    Balanced(st) && (Lossless(View(st), st.books) ==> st.books.unsubtracted == 0)
  }

  /** Without losses, a debit that its denomination covers fits into the escrow. */
  lemma {:induction false} CoveredFits(v: map<Hash, Denom>, t: Totals, b: Books, h: Hash, d: Denom, amount: nat)
    requires EscrowExplained(v, t, b) && Lossless(v, b)
    requires (if h in v then v[h] == d else d == NEW_DENOM) && amount <= d.balance
    ensures amount <= t.escrow
  {
    NetWithout(v, h);
    TotalNonNegative(v - {h}, NetOf);
  }

  lemma {:induction false} ApplyKeepsClean(st: State, m: Move)
    requires Clean(st)
    ensures Clean(Apply(st, m))
  {
    var st', s := Apply(st, m), Load(st, m.h);
    var v, v' := View(st), View(st');
    ApplyKeepsBalanced(st, m);
    if Lossless(v', st'.books) {
      ViewAfterApply(st, m);
      ViewShows(st, m.h);
      LosslessBefore(v, v', s, st.totals, st.books, m);
      if m.Spend? {
        CoveredFits(v, st.totals, st.books, m.h, s.denom, m.amount);
      }
    }
  }

  /** A move that leaves no loss and no credit had none before, and took no more than there was. */
  lemma {:induction false} LosslessBefore(
    v: map<Hash, Denom>, v': map<Hash, Denom>, s: Summary, t: Totals, b: Books, m: Move)
    requires v' == v[m.h := MoveDenom(s, m).denom] && Lossless(v', MoveBooks(t, b, m))
    requires if m.h in v then v[m.h] == s.denom else s.denom == NEW_DENOM
    ensures Lossless(v, b) && (m.Spend? ==> m.amount <= s.denom.balance)
  {
    forall h | h in v ensures v[h].loss == 0 {
      assert h in v' && v'[h].loss == 0;
    }
    assert m.h in v' && v'[m.h].loss == 0;
  }

  lemma {:induction false} ApplyAllKeepsClean(st: State, ms: seq<Move>)
    requires Clean(st)
    ensures Clean(ApplyAll(st, ms))
    decreases |ms|
  {
    if ms != [] {
      ApplyKeepsClean(st, ms[0]);
      ApplyAllKeepsClean(Apply(st, ms[0]), ms[1..]);
    }
  }

  lemma {:induction false} StepKeepsClean(env: Env, st: State, row: Row)
    requires Clean(st)
    ensures var out := Step(env, st, row); !out.Abort? ==> Clean(out.st)
  {
    if row.id >= NextId(st.progress, KindOf(row)) && !Fatal(env, row) {
      var st' := Pass(env, st, row);
      assert View(st') == View(st);
      ApplyAllKeepsClean(st', Moves(env, row));
    }
  }

  lemma {:induction false} SyncOneKeepsClean(env: Env, now: nat, st: State, h: Hash)
    requires Clean(st) && h in st.mem
    ensures SyncOne(env, now, st, h).Next? && Clean(SyncOne(env, now, st, h).st)
  {
    SyncOneKeepsBalanced(env, now, st, h);
    var st' := SyncOne(env, now, st, h).st;
    if Expired(env, now, h) {
      assert View(st') == View(st) - {h};
      assert View(st)[h] == st.mem[h].denom;
      assert forall g | g in View(st) :: g == h || (g in View(st') && View(st')[g] == View(st)[g]);
    } else {
      assert View(st') == View(st);
    }
  }

  lemma {:induction false} SyncKeepsClean(env: Env, now: nat, st: State, order: seq<Hash>)
    requires Clean(st)
    ensures Sync(env, now, st, order).Next? && Clean(Sync(env, now, st, order).st)
    decreases |order|
  {
    if order != [] {
      if order[0] in st.mem {
        SyncOneKeepsClean(env, now, st, order[0]);
        SyncKeepsClean(env, now, SyncOne(env, now, st, order[0]).st, order[1..]);
      } else {
        SyncKeepsClean(env, now, st, order[1..]);
      }
    }
  }

  ghost predicate StoredClean(a: Stored) { Clean(Begin(a)) }

  lemma {:induction false} AnalyzeKeepsClean(x: Attempt, a: Stored)
    requires Plausible(x, a) && StoredClean(a)
    ensures var out := Analyze(x.env, x.now, x.tables, x.order, a); !out.Abort? ==> StoredClean(Store(out.st))
  {
    var cb, st := CallbackOf(x.env), Begin(a);
    forall st, row | Clean(st) && !cb(st, row).Abort? ensures Clean(cb(st, row).st) {
      StepKeepsClean(x.env, st, row);
    }
    ScanTablesKeeps(cb, Clean, x.tables, st);
    AnalyzeKeepsBalanced(x.env, x.now, x.tables, x.order, a);
    var scanned := ScanTables(cb, x.tables, st);
    if !scanned.Abort? {
      SyncKeepsClean(x.env, x.now, scanned.st, x.order);
      var out := Sync(x.env, x.now, scanned.st, x.order).st;
      assert View(Begin(Store(out))) == View(out);
    }
  }

  lemma {:induction false} RunOnceKeepsClean(x: Attempt, a: Stored)
    requires Plausible(x, a) && StoredClean(a)
    ensures StoredClean(RunOnce(x, a))
  {
    AnalyzeKeepsClean(x, a);
    ConcludeKeeps(x, a, Analyze(x.env, x.now, x.tables, x.order, a), StoredClean);
  }

  /**
   * Over any number of runs, failed ones included: as long as no denomination, tracked or retired,
   * has a loss and no recoup-refresh was credited, every debit was subtracted from the escrow.
   */
  lemma {:induction false} EverythingSubtracted(xs: seq<Attempt>)
    requires AllPlausible(RunOnce, Plausible, xs, FIRST_TIME)
    ensures var b := RunMany(RunOnce, xs, FIRST_TIME);
      Lossless(b.db, b.books) ==> b.books.unsubtracted == 0
  {
    assert View(Begin(FIRST_TIME)) == map[];
    forall x, s | Plausible(x, s) && StoredClean(s) ensures StoredClean(RunOnce(x, s)) {
      RunOnceKeepsClean(x, s);
    }
    RunManyKeeps(RunOnce, Plausible, StoredClean, xs, FIRST_TIME);
    var b := RunMany(RunOnce, xs, FIRST_TIME);
    assert View(Begin(b)) == b.db;
  }
}
