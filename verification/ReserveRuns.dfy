/** Any number of reserve audit runs over a growing log, and how they compare with a single run. */
module ReserveRuns {
  import opened Sums
  import opened Reserves

  /** The four tables the reserve auditor reads, in serial order. */
  datatype Log = Log(incoming: seq<Row>, withdrawals: seq<Row>, recoups: seq<Row>, closes: seq<Row>)

  /** How far each table has been audited. */
  datatype Cut = Cut(incoming: nat, withdrawals: nat, recoups: nat, closes: nat)

  predicate UpTo(c: Cut, d: Cut) {
    c.incoming <= d.incoming && c.withdrawals <= d.withdrawals && c.recoups <= d.recoups && c.closes <= d.closes
  }

  predicate Fits(log: Log, c: Cut) {
    UpTo(c, Cut(|log.incoming|, |log.withdrawals|, |log.recoups|, |log.closes|))
  }

  /** The rows between two cuts, in the order in which a run reads them. */
  function Slice(log: Log, c: Cut, d: Cut): seq<Row>
    requires UpTo(c, d) && Fits(log, d)
  {
    log.incoming[c.incoming..d.incoming] + log.withdrawals[c.withdrawals..d.withdrawals]
    + log.recoups[c.recoups..d.recoups] + log.closes[c.closes..d.closes]
  }

  datatype Stored = Stored(books: Books, cut: Cut)

  /** Nothing has been audited yet. */
  predicate FirstTime(a: Stored) { a == Stored(Books(map[], 0, 0, 0, 0, 0, 0), Cut(0, 0, 0, 0)) }

  /** One run: what it sees, the order of the hash map, the exchange's balances, and whether it commits. */
  datatype Attempt = Attempt(seen: Cut, order: seq<Reserve>, shown: Shown, commits: bool)

  ghost predicate Possible(log: Log, x: Attempt, a: Stored) {
    && UpTo(a.cut, x.seen) && Fits(log, x.seen)
    && Enumerates(x.order, GatherAll(a.books.remembered, Slice(log, a.cut, x.seen)))
  }

  /** A run that does not commit leaves everything as it was. */
  ghost function RunOnce(log: Log, x: Attempt, a: Stored): Stored
    requires Possible(log, x, a)
  {
    if x.commits then Stored(AfterRun(a.books, Slice(log, a.cut, x.seen), x.order, x.shown), x.seen) else a
  }

  ghost predicate AllPossible(log: Log, xs: seq<Attempt>, a: Stored)
    decreases |xs|
  {
    xs != [] ==> Possible(log, xs[0], a) && AllPossible(log, xs[1..], RunOnce(log, xs[0], a))
  }

  ghost function RunMany(log: Log, xs: seq<Attempt>, a: Stored): Stored
    requires AllPossible(log, xs, a)
    decreases |xs|
  {
    if xs == [] then a else RunMany(log, xs[1..], RunOnce(log, xs[0], a))
  }

  // ----- the escrow, over all runs -----

  /** The escrow identity; and without losses there has been no clamping either. */
  ghost predicate Sound(b: Books) { Balanced(b) && (b.lost == 0 ==> b.clamped == 0) }

  lemma {:induction false} OverdrawnIffLoss(b: Books, rows: seq<Row>, order: seq<Reserve>, shown: Shown)
    requires Enumerates(order, GatherAll(b.remembered, rows))
    ensures AfterRun(b, rows, order, shown).lost >= b.lost
    ensures AfterRun(b, rows, order, shown).lost == b.lost <==> forall r :: Balance(b.remembered, r) + Net(rows, r) >= 0
  {
    var found := GatherAll(b.remembered, rows);
    LossesOnlyGrow(b, found, order, shown);
    forall r ensures r in found ==>
      found[r].totalIn + found[r].previous - found[r].totalOut == Balance(b.remembered, r) + Net(rows, r)
             ensures r !in found ==> Net(rows, r) == 0 {
      GatheredAt(b.remembered, rows, r);
    }
  }

  lemma {:induction false} RunKeepsSound(b: Books, rows: seq<Row>, order: seq<Reserve>, shown: Shown)
    requires Sound(b) && Enumerates(order, GatherAll(b.remembered, rows))
    ensures Sound(AfterRun(b, rows, order, shown))
  {
    RunKeepsBalanced(b, rows, order, shown);
    var found := GatherAll(b.remembered, rows);
    LossesOnlyGrow(b, found, order, shown);
    if AfterRun(b, rows, order, shown).lost == 0 {
      forall r | r in order ensures found[r].previous == Balance(b.remembered, r) {
        GatheredAt(b.remembered, rows, r);
      }
      NoOverdrawNoClamp(b, found, order, shown);
    }
  }

  /**
   * In every state that any sequence of runs reaches: escrow equals the remembered balances, less
   * the losses of overdrawn reserves, plus the amounts clamped away; and as long as no reserve was
   * overdrawn nothing was ever clamped, in whatever order the reserves were visited.
   */
  lemma {:induction false} EscrowIdentity(log: Log, xs: seq<Attempt>, a: Stored)
    requires AllPossible(log, xs, a) && Sound(a.books)
    ensures Sound(RunMany(log, xs, a).books)
    decreases |xs|
  {
    if xs != [] {
      if xs[0].commits {
        RunKeepsSound(a.books, Slice(log, a.cut, xs[0].seen), xs[0].order, xs[0].shown);
      }
      EscrowIdentity(log, xs[1..], RunOnce(log, xs[0], a));
    }
  }

  /** In particular for every state reached from the first run on. */
  lemma {:induction false} EscrowIdentityFromStart(log: Log, xs: seq<Attempt>, a: Stored)
    requires FirstTime(a) && AllPossible(log, xs, a)
    ensures Sound(RunMany(log, xs, a).books)
  {
    FirstTimeIsSound(a);
    EscrowIdentity(log, xs, a);
  }

  lemma {:induction false} FirstTimeIsSound(a: Stored)
    requires FirstTime(a)
    ensures Sound(a.books)
  {
  }

  /**
   * What a run that meets a reserve unknown to the exchange leaves behind if its last query, for
   * closures, returned exactly one row: the remembered reserves are stored, but neither the totals
   * nor the progress.
   */
  function HalfStored(a: Stored, after: Books): Stored {
    Stored(a.books.(remembered := after.remembered, lost := after.lost, clamped := after.clamped,
                    plus := after.plus, minus := after.minus), a.cut)
  }

  /**
   * The identity survives this exactly if the rows, together with what was clamped, move the escrow
   * nowhere; without losses and overdrafts, exactly if they add up to nothing.
   */
  lemma {:induction false} HalfStoredExactly(a: Stored, rows: seq<Row>, order: seq<Reserve>, shown: Shown)
    requires Balanced(a.books) && Enumerates(order, GatherAll(a.books.remembered, rows))
    ensures var after := AfterRun(a.books, rows, order, shown);
      Balanced(HalfStored(a, after).books) <==> Sum(rows, NetOf) + (after.clamped - a.books.clamped) == 0
    ensures var after := AfterRun(a.books, rows, order, shown);
      var stored := HalfStored(a, after);
      && stored.cut == a.cut && stored.books.remembered == after.remembered
      && stored.books.escrow == a.books.escrow && stored.books.feeIncome == a.books.feeIncome
    ensures Sound(a.books) && a.books.lost == 0 && (forall r :: Balance(a.books.remembered, r) + Net(rows, r) >= 0) ==>
      (Balanced(HalfStored(a, AfterRun(a.books, rows, order, shown)).books) <==> Sum(rows, NetOf) == 0)
  {
    RunKeepsBalanced(a.books, rows, order, shown);
    LossOfRun(a.books, rows, order, shown);
    OverdrawnIffLoss(a.books, rows, order, shown);
    if Sound(a.books) {
      RunKeepsSound(a.books, rows, order, shown);
    }
  }

  /** A run over the rows up to a cut whose transaction is committed, but only half of it. */
  ghost function RunHalf(log: Log, x: Attempt, a: Stored): Stored
    requires Possible(log, x, a)
  {
    HalfStored(a, AfterRun(a.books, Slice(log, a.cut, x.seen), x.order, x.shown))
  }

  /**
   * Since the progress is not stored, the next complete run counts the same rows again.  Against a
   * complete first run this goes unnoticed for a reserve exactly when those rows came to nothing
   * for it, or when it ends up empty either way.
   */
  lemma {:induction false} HalfStoredCountsTwice(
    log: Log, x: Attempt, y: Attempt, z: Attempt, a: Stored, r: Reserve)
    requires Fits(log, a.cut) && Possible(log, x, a) && x.commits && y.commits && z.commits
    requires Possible(log, y, RunHalf(log, x, a)) && Possible(log, z, RunOnce(log, x, a)) && y.seen == z.seen
    ensures var b := Balance(a.books.remembered, r);
      var first, more := Net(Slice(log, a.cut, x.seen), r), Net(Slice(log, x.seen, z.seen), r);
      var left := Max0(b + first);
      var twice := Balance(RunOnce(log, y, RunHalf(log, x, a)).books.remembered, r);
      var once := Balance(RunOnce(log, z, RunOnce(log, x, a)).books.remembered, r);
      && twice == Max0(left + first + more) && once == Max0(left + more)
      && (twice == once <==> first == 0 || (left + more <= 0 && left + first + more <= 0))
  {
    BalanceOfOne(log, x, a, r);
    BalanceOfOne(log, y, RunHalf(log, x, a), r);
    BalanceOfOne(log, z, RunOnce(log, x, a), r);
    SumOfSlice(log, a.cut, x.seen, z.seen, NetFor(r));
    TwiceOrOnce(Max0(Balance(a.books.remembered, r) + Net(Slice(log, a.cut, x.seen), r)),
                Net(Slice(log, a.cut, x.seen), r), Net(Slice(log, x.seen, z.seen), r));
  }

  lemma {:induction false} TwiceOrOnce(left: nat, first: int, more: int)
    ensures Max0(left + first + more) == Max0(left + more)
      <==> first == 0 || (left + more <= 0 && left + first + more <= 0)
  {
  }

  lemma {:induction false} BalanceOfOne(log: Log, x: Attempt, a: Stored, r: Reserve)
    requires Possible(log, x, a) && x.commits
    ensures Balance(RunOnce(log, x, a).books.remembered, r)
      == Max0(Balance(a.books.remembered, r) + Net(Slice(log, a.cut, x.seen), r))
  {
    BalanceAfterRun(a.books, Slice(log, a.cut, x.seen), x.order, x.shown, r);
  }

  // ----- histories with half-stored runs -----

  /** A run, and whether a transaction of its kind was committed in half. */
  datatype Event = Event(x: Attempt, half: bool)

  ghost function AfterEvent(log: Log, e: Event, a: Stored): Stored
    requires Possible(log, e.x, a)
  {
    if e.half then RunHalf(log, e.x, a) else RunOnce(log, e.x, a)
  }

  ghost predicate EventsPossible(log: Log, es: seq<Event>, a: Stored)
    decreases |es|
  {
    es != [] ==> Possible(log, es[0].x, a) && EventsPossible(log, es[1..], AfterEvent(log, es[0], a))
  }

  ghost function AfterEvents(log: Log, es: seq<Event>, a: Stored): Stored
    requires EventsPossible(log, es, a)
    decreases |es|
  {
    if es == [] then a else AfterEvents(log, es[1..], AfterEvent(log, es[0], a))
  }

  /** What the rows of half-stored runs would have moved the escrow by. */
  ghost function NotPosted(log: Log, es: seq<Event>, a: Stored): int
    requires EventsPossible(log, es, a)
    decreases |es|
  {
    if es == [] then 0
    else
      var b := AfterEvent(log, es[0], a);
      NotPosted(log, es[1..], b) +
      if es[0].half
      then Sum(Slice(log, a.cut, es[0].x.seen), NetOf) + b.books.clamped - a.books.clamped
      else 0
  }

  /** How far a set of books is off the identity. */
  ghost function Drift(b: Books): int { TotalBalance(b.remembered) - b.lost + b.clamped - b.escrow }

  lemma {:induction false} RunKeepsDrift(b: Books, rows: seq<Row>, order: seq<Reserve>, shown: Shown)
    requires Enumerates(order, GatherAll(b.remembered, rows))
    ensures Drift(AfterRun(b, rows, order, shown)) == Drift(b)
    ensures var c := AfterRun(b, rows, order, shown); c.escrow - b.escrow == Sum(rows, NetOf) + c.clamped - b.clamped
  {
    LossOfRun(b, rows, order, shown);
    EscrowMoves(b, GatherAll(b.remembered, rows), order, shown);
    TurnoverGathered(b.remembered, rows);
    assert Visited(GatherAll(b.remembered, rows), order) == GatherAll(b.remembered, rows);
  }

  lemma {:induction false} EscrowMoves(b: Books, found: map<Reserve, Summary>, order: seq<Reserve>, shown: Shown)
    requires Unique(order) && forall r | r in order :: r in found
    ensures var c := SettleAll(b, found, order, shown);
      c.escrow - b.escrow == Total(Visited(found, order), TurnoverOf) + c.clamped - b.clamped
  {
    if order == [] {
      assert Visited(found, order) == map[];
    } else {
      var n := |order| - 1;
      assert order == order[..n] + [order[n]];
      EscrowMoves(b, found, order[..n], shown);
      VisitOneMore(found, order[..n], order[n], TurnoverOf);
    }
  }

  /**
   * The escrow identity over every history, complete, failed and half-stored runs in any order: the
   * escrow is off exactly by what the rows of the half-stored runs did not post.
   */
  lemma {:induction false} EscrowIdentityAlways(log: Log, es: seq<Event>, a: Stored)
    requires EventsPossible(log, es, a) && Balanced(a.books)
    ensures var b := AfterEvents(log, es, a).books;
      b.escrow + NotPosted(log, es, a) == TotalBalance(b.remembered) - b.lost + b.clamped
  {
    DriftOfEvents(log, es, a);
  }

  lemma {:induction false} DriftOfEvents(log: Log, es: seq<Event>, a: Stored)
    requires EventsPossible(log, es, a)
    ensures Drift(AfterEvents(log, es, a).books) == Drift(a.books) + NotPosted(log, es, a)
    decreases |es|
  {
    if es != [] {
      var x := es[0].x;
      RunKeepsDrift(a.books, Slice(log, a.cut, x.seen), x.order, x.shown);
      DriftOfEvents(log, es[1..], AfterEvent(log, es[0], a));
    }
  }

  // ----- splitting the log -----

  lemma {:induction false} SumOfSlice(log: Log, c: Cut, d: Cut, e: Cut, f: Row -> int)
    requires UpTo(c, d) && UpTo(d, e) && Fits(log, e)
    ensures Sum(Slice(log, c, e), f) == Sum(Slice(log, c, d), f) + Sum(Slice(log, d, e), f)
  {
    SliceIsFour(log, c, d, f);
    SliceIsFour(log, d, e, f);
    SliceIsFour(log, c, e, f);
    StretchSplits(log.incoming, c.incoming, d.incoming, e.incoming, f);
    StretchSplits(log.withdrawals, c.withdrawals, d.withdrawals, e.withdrawals, f);
    StretchSplits(log.recoups, c.recoups, d.recoups, e.recoups, f);
    StretchSplits(log.closes, c.closes, d.closes, e.closes, f);
  }

  lemma {:induction false} SliceIsFour(log: Log, c: Cut, d: Cut, f: Row -> int)
    requires UpTo(c, d) && Fits(log, d)
    ensures Sum(Slice(log, c, d), f)
      == Sum(log.incoming[c.incoming..d.incoming], f) + Sum(log.withdrawals[c.withdrawals..d.withdrawals], f)
         + Sum(log.recoups[c.recoups..d.recoups], f) + Sum(log.closes[c.closes..d.closes], f)
  {
    var s, t := log.incoming[c.incoming..d.incoming], log.withdrawals[c.withdrawals..d.withdrawals];
    var u, v := log.recoups[c.recoups..d.recoups], log.closes[c.closes..d.closes];
    SumAppend(s, t, f);
    SumAppend(s + t, u, f);
    SumAppend(s + t + u, v, f);
  }

  lemma {:induction false} StretchSplits(rows: seq<Row>, lo: nat, mid: nat, hi: nat, f: Row -> int)
    requires lo <= mid <= hi <= |rows|
    ensures Sum(rows[lo..hi], f) == Sum(rows[lo..mid], f) + Sum(rows[mid..hi], f)
  {
    assert rows[lo..hi] == rows[lo..mid] + rows[mid..hi];
    SumAppend(rows[lo..mid], rows[mid..hi], f);
  }

  lemma {:induction false} CutsGrow(log: Log, xs: seq<Attempt>, a: Stored)
    requires AllPossible(log, xs, a) && Fits(log, a.cut)
    ensures UpTo(a.cut, RunMany(log, xs, a).cut) && Fits(log, RunMany(log, xs, a).cut)
    ensures Ordered(log, a.cut, xs)
    decreases |xs|
  {
    if xs != [] {
      CutsGrow(log, xs[1..], RunOnce(log, xs[0], a));
      assert forall x | x in xs :: x == xs[0] || x in xs[1..];
    }
  }

  /** Every committed run sees at least the rows before `base`. */
  ghost predicate Ordered(log: Log, base: Cut, xs: seq<Attempt>) {
    forall x | x in xs && x.commits :: UpTo(base, x.seen) && Fits(log, x.seen)
  }

  /** What is in a reserve by the log alone, if it held `b` at `base`: possibly less than nothing. */
  function Exact(log: Log, base: Cut, b: int, c: Cut, r: Reserve): int
    requires UpTo(base, c) && Fits(log, c)
  {
    b + Net(Slice(log, base, c), r)
  }

  /** The lowest of `floor` and the exact balances at the committed checkpoints. */
  function Lowest(log: Log, base: Cut, b: int, xs: seq<Attempt>, r: Reserve, floor: int): int
    requires Ordered(log, base, xs)
    decreases |xs|
  {
    if xs == [] then floor
    else
      assert xs[0] in xs && forall x | x in xs[1..] :: x in xs;
      Lowest(log, base, b, xs[1..], r,
             if xs[0].commits then Min(floor, Exact(log, base, b, xs[0].seen, r)) else floor)
  }

  function Min(x: int, y: int): int { if x < y then x else y }

  lemma {:induction false} LowestMeaning(log: Log, base: Cut, b: int, xs: seq<Attempt>, r: Reserve, floor: int)
    requires Ordered(log, base, xs)
    ensures var m := Lowest(log, base, b, xs, r, floor);
      && m <= floor && (forall x | x in xs && x.commits :: m <= Exact(log, base, b, x.seen, r))
      && (m == floor || exists x | x in xs && x.commits :: m == Exact(log, base, b, x.seen, r))
    decreases |xs|
  {
    if xs != [] {
      assert xs[0] in xs && forall x | x in xs :: x == xs[0] || x in xs[1..];
      assert forall x | x in xs[1..] :: x in xs;
      LowestMeaning(log, base, b, xs[1..], r,
                    if xs[0].commits then Min(floor, Exact(log, base, b, xs[0].seen, r)) else floor);
    }
  }

  /** Starting later from a balance that is off by `e` shifts every exact balance by `e`. */
  lemma {:induction false} LowestShift(
    log: Log, base: Cut, b: int, base': Cut, b': int, xs: seq<Attempt>, r: Reserve, floor: int, e: int)
    requires UpTo(base, base') && Fits(log, base') && Ordered(log, base', xs) && Ordered(log, base, xs)
    requires b' == Exact(log, base, b, base', r) + e
    ensures Lowest(log, base', b', xs, r, floor + e) == Lowest(log, base, b, xs, r, floor) + e
    decreases |xs|
  {
    if xs != [] {
      assert xs[0] in xs && forall x | x in xs[1..] :: x in xs;
      assert Ordered(log, base, xs[1..]) && Ordered(log, base', xs[1..]);
      var next := floor;
      if xs[0].commits {
        ExactShift(log, base, b, base', b', xs[0].seen, r, e);
        next := Min(floor, Exact(log, base, b, xs[0].seen, r));
        assert Min(floor + e, Exact(log, base', b', xs[0].seen, r)) == next + e;
      }
      LowestShift(log, base, b, base', b', xs[1..], r, next, e);
    }
  }

  lemma {:induction false} ExactShift(
    log: Log, base: Cut, b: int, base': Cut, b': int, seen: Cut, r: Reserve, e: int)
    requires UpTo(base, base') && UpTo(base', seen) && Fits(log, seen)
    requires b' == Exact(log, base, b, base', r) + e
    ensures UpTo(base, seen) && Exact(log, base', b', seen, r) == Exact(log, base, b, seen, r) + e
  {
    SumOfSlice(log, base, base', seen, NetFor(r));
  }

  /**
   * What any number of runs remember of a reserve, by the log alone: its exact balance, raised by
   * however far it was ever below zero at a checkpoint.
   */
  lemma {:induction false} BalanceOfRuns(log: Log, xs: seq<Attempt>, a: Stored, r: Reserve)
    requires AllPossible(log, xs, a) && Fits(log, a.cut)
    ensures UpTo(a.cut, RunMany(log, xs, a).cut) && Fits(log, RunMany(log, xs, a).cut) && Ordered(log, a.cut, xs)
    ensures var z, b := RunMany(log, xs, a), Balance(a.books.remembered, r);
      Balance(z.books.remembered, r) == Exact(log, a.cut, b, z.cut, r) - Lowest(log, a.cut, b, xs, r, 0)
    ensures var z, b := RunMany(log, xs, a), Balance(a.books.remembered, r);
      var rows := Slice(log, a.cut, z.cut);
      Exact(log, a.cut, b, z.cut, r)
        == b + Sum(rows, IncomingFor(r)) + Sum(rows, RecoupedFor(r))
           - Sum(rows, WithdrawnFor(r)) - Sum(rows, ClosedFor(r))
    decreases |xs|
  {
    CutsGrow(log, xs, a);
    NetByKind(Slice(log, a.cut, RunMany(log, xs, a).cut), r);
    if xs == [] {
      EmptySlice(log, a.cut, r);
    } else {
      var a' := RunOnce(log, xs[0], a);
      CutsGrow(log, xs[1..], a');
      BalanceOfRuns(log, xs[1..], a', r);
      if xs[0].commits {
        BalanceAfterRun(a.books, Slice(log, a.cut, xs[0].seen), xs[0].order, xs[0].shown, r);
        OrderedRest(log, a.cut, xs);
        AfterFirstRun(log, a.cut, Balance(a.books.remembered, r), a'.cut, Balance(a'.books.remembered, r),
                      xs[1..], r, RunMany(log, xs, a).cut);
      }
    }
  }

  lemma {:induction false} OrderedRest(log: Log, base: Cut, xs: seq<Attempt>)
    requires Ordered(log, base, xs) && xs != []
    ensures Ordered(log, base, xs[1..])
  {
    assert forall x | x in xs[1..] :: x in xs;
  }

  lemma {:induction false} AfterFirstRun(
    log: Log, base: Cut, b: int, base': Cut, b': int, xs: seq<Attempt>, r: Reserve, end: Cut)
    requires UpTo(base, base') && UpTo(base', end) && Fits(log, end)
    requires Ordered(log, base', xs) && Ordered(log, base, xs)
    requires b' == Max0(Exact(log, base, b, base', r))
    ensures Exact(log, base', b', end, r) - Lowest(log, base', b', xs, r, 0)
      == Exact(log, base, b, end, r) - Lowest(log, base, b, xs, r, Min(0, Exact(log, base, b, base', r)))
  {
    var s := Exact(log, base, b, base', r);
    assert Exact(log, base', b', end, r) == Exact(log, base, b, end, r) + (b' - s) by {
      SumOfSlice(log, base, base', end, NetFor(r));
    }
    assert Min(0, s) + (b' - s) == 0;
    LowestShift(log, base, b, base', b', xs, r, Min(0, s), b' - s);
  }

  lemma {:induction false} EmptySlice(log: Log, c: Cut, r: Reserve)
    requires Fits(log, c)
    ensures Net(Slice(log, c, c), r) == 0
  {
    assert Slice(log, c, c) == [];
  }

  /** One run over exactly the rows that a sequence of runs has audited. */
  ghost predicate SameRows(log: Log, xs: seq<Attempt>, one: Attempt, a: Stored) {
    && AllPossible(log, xs, a) && Possible(log, one, a) && Fits(log, a.cut)
    && one.commits && one.seen == RunMany(log, xs, a).cut
  }

  /** The exact balance is at least `low` at every committed checkpoint. */
  ghost predicate StaysAbove(log: Log, base: Cut, b: int, xs: seq<Attempt>, r: Reserve, low: int)
    requires Ordered(log, base, xs)
  {
    forall x | x in xs && x.commits :: low <= Exact(log, base, b, x.seen, r)
  }

  /**
   * For each reserve, auditing in several runs remembers the same balance as one run over the same
   * rows exactly when, by the log, its balance is below zero at no checkpoint, or lowest at the end.
   */
  lemma {:induction false} SplitExactly(log: Log, xs: seq<Attempt>, one: Attempt, a: Stored, r: Reserve)
    requires SameRows(log, xs, one, a)
    ensures Ordered(log, a.cut, xs)
    ensures var b := Balance(a.books.remembered, r);
      Balance(RunMany(log, xs, a).books.remembered, r) == Balance(RunOnce(log, one, a).books.remembered, r) <==>
      || StaysAbove(log, a.cut, b, xs, r, 0)
      || StaysAbove(log, a.cut, b, xs, r, Exact(log, a.cut, b, one.seen, r))
  {
    var b := Balance(a.books.remembered, r);
    BalanceOfRuns(log, xs, a, r);
    BalanceAfterRun(a.books, Slice(log, a.cut, one.seen), one.order, one.shown, r);
    LowestMeaning(log, a.cut, b, xs, r, 0);
    EndsSomewhere(log, xs, a);
    EmptySlice(log, a.cut, r);
  }

  /** The last cut is that of some committed run, unless there was none. */
  lemma {:induction false} EndsSomewhere(log: Log, xs: seq<Attempt>, a: Stored)
    requires AllPossible(log, xs, a)
    ensures var c := RunMany(log, xs, a).cut; c == a.cut || exists x | x in xs :: x.commits && x.seen == c
    decreases |xs|
  {
    if xs != [] {
      EndsSomewhere(log, xs[1..], RunOnce(log, xs[0], a));
      assert xs[0] in xs && forall x | x in xs[1..] :: x in xs;
    }
  }

  /** Fee income never depends on the split. */
  lemma {:induction false} FeesOfRuns(log: Log, xs: seq<Attempt>, a: Stored)
    requires AllPossible(log, xs, a) && Fits(log, a.cut)
    ensures UpTo(a.cut, RunMany(log, xs, a).cut) && Fits(log, RunMany(log, xs, a).cut)
    ensures RunMany(log, xs, a).books.feeIncome
      == a.books.feeIncome + Sum(Slice(log, a.cut, RunMany(log, xs, a).cut), FeeOf)
    decreases |xs|
  {
    CutsGrow(log, xs, a);
    if xs == [] {
      assert Slice(log, a.cut, a.cut) == [];
    } else {
      var b := RunOnce(log, xs[0], a);
      FeesOfRuns(log, xs[1..], b);
      SumOfSlice(log, a.cut, b.cut, RunMany(log, xs, a).cut, FeeOf);
      if xs[0].commits {
        FeesOfRun(a.books, Slice(log, a.cut, xs[0].seen), xs[0].order, xs[0].shown);
      } else {
        assert Slice(log, a.cut, a.cut) == [];
      }
    }
  }

  /** By the log, no reserve is below zero at any committed checkpoint. */
  ghost predicate Solvent(log: Log, xs: seq<Attempt>, a: Stored)
    requires Ordered(log, a.cut, xs)
  {
    forall r :: StaysAbove(log, a.cut, Balance(a.books.remembered, r), xs, r, 0)
  }

  lemma {:induction false} SolventRest(log: Log, xs: seq<Attempt>, a: Stored, a': Stored)
    requires Ordered(log, a.cut, xs) && xs != [] && xs[0].commits
    requires a'.cut == xs[0].seen && Ordered(log, a'.cut, xs[1..])
    requires forall r ::
      Balance(a'.books.remembered, r) == Exact(log, a.cut, Balance(a.books.remembered, r), xs[0].seen, r)
    requires forall r :: Balance(a.books.remembered, r) + Net(Slice(log, a.cut, xs[0].seen), r) >= 0
    ensures Solvent(log, xs, a) <==> Solvent(log, xs[1..], a')
  {
    assert xs[0] in xs && forall x | x in xs :: x == xs[0] || x in xs[1..];
    assert forall x | x in xs[1..] :: x in xs;
    forall r ensures StaysAbove(log, a.cut, Balance(a.books.remembered, r), xs, r, 0)
      <==> StaysAbove(log, a'.cut, Balance(a'.books.remembered, r), xs[1..], r, 0)
    {
      forall x | x in xs[1..] && x.commits
        ensures Exact(log, a.cut, Balance(a.books.remembered, r), x.seen, r)
          == Exact(log, a'.cut, Balance(a'.books.remembered, r), x.seen, r)
      {
        SumOfSlice(log, a.cut, a'.cut, x.seen, NetFor(r));
      }
    }
  }

  /** Losses are booked exactly when, by the log, some reserve is below zero at some checkpoint. */
  lemma {:induction false} LossesOfRuns(log: Log, xs: seq<Attempt>, a: Stored)
    requires AllPossible(log, xs, a) && Fits(log, a.cut)
    ensures Ordered(log, a.cut, xs) && RunMany(log, xs, a).books.lost >= a.books.lost
    ensures RunMany(log, xs, a).books.lost == a.books.lost <==> Solvent(log, xs, a)
    decreases |xs|
  {
    CutsGrow(log, xs, a);
    if xs != [] {
      var a' := RunOnce(log, xs[0], a);
      CutsGrow(log, xs[1..], a');
      LossesOfRuns(log, xs[1..], a');
      if xs[0].commits {
        FirstRunDecides(log, xs, a);
      } else {
        SkippedRun(log, xs, a);
      }
    }
  }

  lemma {:induction false} FirstRunDecides(log: Log, xs: seq<Attempt>, a: Stored)
    requires AllPossible(log, xs, a) && Fits(log, a.cut) && xs != [] && xs[0].commits
    requires Ordered(log, a.cut, xs) && Ordered(log, xs[0].seen, xs[1..])
    ensures var a' := RunOnce(log, xs[0], a);
      && a'.books.lost >= a.books.lost
      && (Solvent(log, xs, a) <==> a'.books.lost == a.books.lost && Solvent(log, xs[1..], a'))
  {
    var a', rows := RunOnce(log, xs[0], a), Slice(log, a.cut, xs[0].seen);
    OverdrawnIffLoss(a.books, rows, xs[0].order, xs[0].shown);
    assert xs[0] in xs;
    if Solvent(log, xs, a) {
      forall r ensures Balance(a.books.remembered, r) + Net(rows, r) >= 0 {
        assert StaysAbove(log, a.cut, Balance(a.books.remembered, r), xs, r, 0);
      }
    }
    if forall r :: Balance(a.books.remembered, r) + Net(rows, r) >= 0 {
      forall r ensures Balance(a'.books.remembered, r) ==
        Exact(log, a.cut, Balance(a.books.remembered, r), xs[0].seen, r) {
        BalanceAfterRun(a.books, rows, xs[0].order, xs[0].shown, r);
      }
      SolventRest(log, xs, a, a');
    }
  }

  lemma {:induction false} SkippedRun(log: Log, xs: seq<Attempt>, a: Stored)
    requires xs != [] && !xs[0].commits && Ordered(log, a.cut, xs) && Ordered(log, a.cut, xs[1..])
    ensures Solvent(log, xs, a) <==> Solvent(log, xs[1..], a)
  {
    assert forall x | x in xs && x.commits :: x in xs[1..];
    assert forall x | x in xs[1..] :: x in xs;
    forall r ensures StaysAbove(log, a.cut, Balance(a.books.remembered, r), xs, r, 0)
      <==> StaysAbove(log, a.cut, Balance(a.books.remembered, r), xs[1..], r, 0) {
    }
  }

  // ----- what the losses of all runs come to -----

  lemma {:induction false} LossAccounts(log: Log, xs: seq<Attempt>, a: Stored)
    requires AllPossible(log, xs, a) && Fits(log, a.cut)
    ensures UpTo(a.cut, RunMany(log, xs, a).cut) && Fits(log, RunMany(log, xs, a).cut)
    ensures var z := RunMany(log, xs, a);
      z.books.lost - a.books.lost == TotalBalance(z.books.remembered) - TotalBalance(a.books.remembered)
                                     - Sum(Slice(log, a.cut, z.cut), NetOf)
    decreases |xs|
  {
    CutsGrow(log, xs, a);
    if xs == [] {
      assert Slice(log, a.cut, a.cut) == [];
    } else {
      var a' := RunOnce(log, xs[0], a);
      LossAccounts(log, xs[1..], a');
      SumOfSlice(log, a.cut, a'.cut, RunMany(log, xs, a).cut, NetOf);
      if xs[0].commits {
        LossOfRun(a.books, Slice(log, a.cut, xs[0].seen), xs[0].order, xs[0].shown);
      } else {
        assert Slice(log, a.cut, a.cut) == [];
      }
    }
  }

  function BalanceIn(m: Remembered): Reserve -> int { (r: Reserve) => Balance(m, r) }
  function NetIn(rows: seq<Row>): Reserve -> int { (r: Reserve) => Net(rows, r) }
  function NetAt(row: Row): Reserve -> int { (r: Reserve) => if row.reserve == r then NetOf(row) else 0 }

  /** The total is the sum over any list of reserves that leaves out empty ones only. */
  lemma {:induction false} TotalOver(m: Remembered, rs: seq<Reserve>)
    requires Unique(rs) && forall r | r !in rs :: Balance(m, r) == 0
    ensures TotalBalance(m) == Sum(rs, BalanceIn(m))
    decreases |rs|
  {
    if rs == [] {
      SameTotal(m, map[]);
    } else {
      var n := |rs| - 1;
      var r := rs[n];
      assert rs == rs[..n] + [r];
      RemovalLeaves(m, r);
      assert forall q :: Balance(m - {r}, q) == if q == r then 0 else Balance(m, q);
      TotalOver(m - {r}, rs[..n]);
      SumSame(rs[..n], BalanceIn(m - {r}), BalanceIn(m));
      SumSnoc(rs[..n], r, BalanceIn(m));
    }
  }

  lemma {:induction false} NetOfOneRow(row: Row, rs: seq<Reserve>)
    requires Unique(rs)
    ensures Sum(rs, NetAt(row)) == if row.reserve in rs then NetOf(row) else 0
  {
    if rs != [] {
      var n := |rs| - 1;
      assert rs == rs[..n] + [rs[n]];
      NetOfOneRow(row, rs[..n]);
      SumSnoc(rs[..n], rs[n], NetAt(row));
      assert NetAt(row)(rs[n]) == if row.reserve == rs[n] then NetOf(row) else 0;
      assert rs[n] !in rs[..n];
    }
  }

  lemma {:induction false} NetOver(rows: seq<Row>, rs: seq<Reserve>)
    requires Unique(rs) && forall row | row in rows && Counts(row) :: row.reserve in rs
    ensures Sum(rows, NetOf) == Sum(rs, NetIn(rows))
  {
    if rows == [] {
      SumOfNothing(rs);
    } else {
      var n := |rows| - 1;
      var front, row := rows[..n], rows[n];
      assert rows == front + [row];
      NetOver(front, rs);
      SumSnoc(front, row, NetOf);
      NetOfOneRow(row, rs);
      forall r | r in rs ensures NetIn(rows)(r) == NetIn(front)(r) + NetAt(row)(r) {
        SumSnoc(front, row, NetFor(r));
      }
      SumAdd(rs, NetIn(front), NetAt(row), NetIn(rows));
    }
  }

  lemma {:induction false} SumOfNothing(rs: seq<Reserve>)
    ensures Sum(rs, NetIn([])) == 0
  {
    if rs != [] {
      SumOfNothing(rs[1..]);
    }
  }

  /** How far below zero the log takes a reserve at its lowest checkpoint. */
  ghost function DipOf(log: Log, xs: seq<Attempt>, a: Stored): Reserve -> int {
    (r: Reserve) =>
      if Ordered(log, a.cut, xs) then 0 - Lowest(log, a.cut, Balance(a.books.remembered, r), xs, r, 0) else 0
  }

  /** No row of the log concerns any other reserve. */
  predicate About(log: Log, rs: seq<Reserve>) {
    && (forall row | row in log.incoming && Counts(row) :: row.reserve in rs)
    && (forall row | row in log.withdrawals && Counts(row) :: row.reserve in rs)
    && (forall row | row in log.recoups && Counts(row) :: row.reserve in rs)
    && (forall row | row in log.closes && Counts(row) :: row.reserve in rs)
  }

  lemma {:induction false} SliceIsAbout(log: Log, c: Cut, d: Cut, rs: seq<Reserve>)
    requires UpTo(c, d) && Fits(log, d) && About(log, rs)
    ensures forall row | row in Slice(log, c, d) && Counts(row) :: row.reserve in rs
  {
  }

  lemma {:induction false} NoRowsNoNet(rows: seq<Row>, r: Reserve)
    requires forall row | row in rows && Counts(row) :: row.reserve != r
    ensures Net(rows, r) == 0
  {
    if rows != [] {
      assert rows[0] in rows && forall row | row in rows[1..] :: row in rows;
      NoRowsNoNet(rows[1..], r);
    }
  }

  /** A reserve without balance and rows stays empty and never dips. */
  lemma {:induction false} OthersStayEmpty(log: Log, xs: seq<Attempt>, a: Stored, rs: seq<Reserve>, r: Reserve)
    requires AllPossible(log, xs, a) && Fits(log, a.cut) && About(log, rs)
    requires r !in rs && Balance(a.books.remembered, r) == 0
    ensures Balance(RunMany(log, xs, a).books.remembered, r) == 0
  {
    BalanceOfRuns(log, xs, a, r);
    LowestMeaning(log, a.cut, 0, xs, r, 0);
    forall c | UpTo(a.cut, c) && Fits(log, c) ensures Exact(log, a.cut, 0, c, r) == 0 {
      SliceIsAbout(log, a.cut, c, rs);
      NoRowsNoNet(Slice(log, a.cut, c), r);
    }
  }

  /** The losses booked by all runs are, by the log, the lowest dips of all reserves taken together. */
  lemma {:induction false} LossesAreDips(log: Log, xs: seq<Attempt>, a: Stored, rs: seq<Reserve>)
    requires AllPossible(log, xs, a) && Fits(log, a.cut) && Unique(rs) && About(log, rs)
    requires forall r | r !in rs :: Balance(a.books.remembered, r) == 0
    ensures RunMany(log, xs, a).books.lost - a.books.lost == Sum(rs, DipOf(log, xs, a))
  {
    var z := RunMany(log, xs, a);
    LossAccounts(log, xs, a);
    var rows := Slice(log, a.cut, z.cut);
    SliceIsAbout(log, a.cut, z.cut, rs);
    NetOver(rows, rs);
    TotalOver(a.books.remembered, rs);
    forall r | r !in rs ensures Balance(z.books.remembered, r) == 0 {
      OthersStayEmpty(log, xs, a, rs, r);
    }
    TotalOver(z.books.remembered, rs);
    DipsAddUp(log, xs, a, rs, rows);
  }

  lemma {:induction false} DipsAddUp(log: Log, xs: seq<Attempt>, a: Stored, rs: seq<Reserve>, rows: seq<Row>)
    requires AllPossible(log, xs, a) && Fits(log, a.cut)
    requires UpTo(a.cut, RunMany(log, xs, a).cut) && Fits(log, RunMany(log, xs, a).cut)
    requires rows == Slice(log, a.cut, RunMany(log, xs, a).cut)
    ensures Sum(rs, BalanceIn(RunMany(log, xs, a).books.remembered))
      == Sum(rs, BalanceIn(a.books.remembered)) + Sum(rs, NetIn(rows)) + Sum(rs, DipOf(log, xs, a))
  {
    var before, after := BalanceIn(a.books.remembered), BalanceIn(RunMany(log, xs, a).books.remembered);
    var exact := (r: Reserve) => before(r) + NetIn(rows)(r);
    SumAdd(rs, before, NetIn(rows), exact);
    forall r | r in rs ensures after(r) == exact(r) + DipOf(log, xs, a)(r) {
      BalanceOfRuns(log, xs, a, r);
    }
    SumAdd(rs, exact, DipOf(log, xs, a), after);
  }

  /** Maps that agree on every balance, absent reserves counting as empty, have the same total. */
  lemma {:induction false} SameTotal(m: Remembered, n: Remembered)
    requires forall r :: Balance(m, r) == Balance(n, r)
    ensures TotalBalance(m) == TotalBalance(n)
    decreases |m| + |n|
  {
    if m != map[] || n != map[] {
      var r :| r in m || r in n;
      RemovalLeaves(m, r);
      RemovalLeaves(n, r);
      assert forall q :: Balance(m - {r}, q) == if q == r then 0 else Balance(m, q);
      assert forall q :: Balance(n - {r}, q) == if q == r then 0 else Balance(n, q);
      SmallerWithout(m, n, r);
      SameTotal(m - {r}, n - {r});
    }
  }

  lemma {:induction false} SmallerWithout(m: Remembered, n: Remembered, r: Reserve)
    requires r in m || r in n
    ensures |m - {r}| + |n - {r}| < |m| + |n|
  {
    Without(m, r);
    Without(n, r);
  }

  lemma {:induction false} Without(m: Remembered, r: Reserve)
    ensures |m - {r}| == if r in m then |m| - 1 else |m|
  {
    if r in m {
      assert m.Keys == (m - {r}).Keys + {r};
    } else {
      assert m - {r} == m;
    }
  }

  /**
   * If no reserve is overdrawn at a checkpoint, any number of committed runs, interleaved with any
   * number of failed ones, leaves the same remembered balances, escrow and fee income as one run
   * over the whole log, and neither way loses or clamps anything.
   */
  lemma {:induction false} SplitInvariance(log: Log, xs: seq<Attempt>, one: Attempt, a: Stored)
    requires SameRows(log, xs, one, a) && Ordered(log, a.cut, xs) && Sound(a.books) && a.books.lost == 0
    requires Solvent(log, xs, a)
    ensures var b, c := RunMany(log, xs, a).books, RunOnce(log, one, a).books;
      && (forall r :: Balance(b.remembered, r) == Balance(c.remembered, r))
      && b.escrow == c.escrow && b.feeIncome == c.feeIncome
      && b.lost == c.lost == 0 && b.clamped == c.clamped == 0
  {
    var b, c := RunMany(log, xs, a).books, RunOnce(log, one, a).books;
    forall r ensures Balance(b.remembered, r) == Balance(c.remembered, r) {
      SplitExactly(log, xs, one, a, r);
      assert StaysAbove(log, a.cut, Balance(a.books.remembered, r), xs, r, 0);
    }
    LossesOfRuns(log, xs, a);
    OneRunLosesNothing(log, xs, one, a);
    EscrowIdentity(log, xs, a);
    RunKeepsSound(a.books, Slice(log, a.cut, one.seen), one.order, one.shown);
    SameEscrow(b, c);
    FeesOfRuns(log, xs, a);
    FeesOfRun(a.books, Slice(log, a.cut, one.seen), one.order, one.shown);
  }

  lemma {:induction false} OneRunLosesNothing(log: Log, xs: seq<Attempt>, one: Attempt, a: Stored)
    requires SameRows(log, xs, one, a) && Ordered(log, a.cut, xs) && Solvent(log, xs, a)
    ensures RunOnce(log, one, a).books.lost == a.books.lost
  {
    var rows := Slice(log, a.cut, one.seen);
    EndsSomewhere(log, xs, a);
    forall r ensures Balance(a.books.remembered, r) + Net(rows, r) >= 0 {
      assert StaysAbove(log, a.cut, Balance(a.books.remembered, r), xs, r, 0);
      EmptySlice(log, a.cut, r);
    }
    OverdrawnIffLoss(a.books, rows, one.order, one.shown);
  }

  lemma {:induction false} SameEscrow(b: Books, c: Books)
    requires Sound(b) && Sound(c) && b.lost == 0 && c.lost == 0
    requires forall r :: Balance(b.remembered, r) == Balance(c.remembered, r)
    ensures b.escrow == c.escrow && b.clamped == 0 && c.clamped == 0
  {
    SameTotal(b.remembered, c.remembered);
  }
}
