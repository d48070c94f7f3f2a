/**
 * Sorting a history into tables keeps a running total from going negative, when the tables
 * replayed first only add and the table replayed last only takes.
 */
module Reordering {

  /** One change of a total, tagged with the table it is recorded in. */
  datatype Event = Event(table: nat, delta: int)

  /** A history, oldest event first. */
  datatype History = Start | Then(before: History, last: Event)

  /** Tables 0 to 3 only add, table 5 only takes; table 4 does both. */
  const MIXED: nat := 4
  const TAKING: nat := 5

  predicate WellTagged(e: Event) {
    && e.table <= TAKING
    && (e.table < MIXED ==> e.delta >= 0)
    && (e.table == TAKING ==> e.delta <= 0)
  }

  predicate AllWellTagged(es: History) {
    match es
    case Start => true
    case Then(before, last) => AllWellTagged(before) && WellTagged(last)
  }

  function Net(es: History): int {
    match es
    case Start => 0
    case Then(before, last) => Net(before) + last.delta
  }

  /** Starting from `b`, the running total is never negative, before, between or after events. */
  predicate NeverNegative(b: int, es: History) {
    b + Net(es) >= 0 && (es.Then? ==> NeverNegative(b, es.before))
  }

  function Append(s: History, t: History): History {
    match t
    case Start => s
    case Then(before, last) => Then(Append(s, before), last)
  }

  lemma {:induction false} NetAppend(s: History, t: History)
    ensures Net(Append(s, t)) == Net(s) + Net(t)
  {
    if t.Then? {
      NetAppend(s, t.before);
    }
  }

  lemma {:induction false} NeverNegativeAppend(b: int, s: History, t: History)
    ensures NeverNegative(b, Append(s, t)) <==> NeverNegative(b, s) && NeverNegative(b + Net(s), t)
  {
    NetAppend(s, t);
    if t.Then? {
      NeverNegativeAppend(b, s, t.before);
    }
  }

  /** Taking the oldest event off the front. */
  lemma {:induction false} OldestFirst(b: int, e: Event, rest: History)
    ensures Net(Append(Then(Start, e), rest)) == e.delta + Net(rest)
    ensures NeverNegative(b, Append(Then(Start, e), rest)) <==>
      b >= 0 && b + e.delta >= 0 && NeverNegative(b + e.delta, rest)
  {
    NetAppend(Then(Start, e), rest);
    NeverNegativeAppend(b, Then(Start, e), rest);
  }

  /** The events of one table, in the order in which they happened. */
  function OfTable(es: History, k: nat): History {
    match es
    case Start => Start
    case Then(before, last) => if last.table == k then Then(OfTable(before, k), last) else OfTable(before, k)
  }

  /** The tables that only add, one after the other. */
  function Early(es: History): History {
    Append(Append(Append(OfTable(es, 0), OfTable(es, 1)), OfTable(es, 2)), OfTable(es, 3))
  }

  /** All tables, in the order in which they are replayed. */
  function Sorted(es: History): History {
    Append(Append(Early(es), OfTable(es, MIXED)), OfTable(es, TAKING))
  }

  lemma {:induction false} EarlyNet(es: History)
    ensures Net(Early(es)) == Net(OfTable(es, 0)) + Net(OfTable(es, 1)) + Net(OfTable(es, 2)) + Net(OfTable(es, 3))
  {
    var t0, t1, t2, t3 := OfTable(es, 0), OfTable(es, 1), OfTable(es, 2), OfTable(es, 3);
    NetAppend(t0, t1);
    NetAppend(Append(t0, t1), t2);
    NetAppend(Append(Append(t0, t1), t2), t3);
  }

  lemma {:induction false} EarlyNetLast(before: History, last: Event)
    ensures Net(Early(Then(before, last))) == Net(Early(before)) + if last.table < MIXED then last.delta else 0
  {
    EarlyNet(before);
    EarlyNet(Then(before, last));
  }

  /** Sorting does not change what the events add up to. */
  lemma {:induction false} TablesAddUp(es: History)
    requires AllWellTagged(es)
    ensures Net(es) == Net(Early(es)) + Net(OfTable(es, MIXED)) + Net(OfTable(es, TAKING))
  {
    match es
    case Start => EarlyNet(es);
    case Then(before, last) =>
      TablesAddUp(before);
      EarlyNetLast(before, last);
  }

  /** A table whose events only add is safe from any non-negative start. */
  lemma {:induction false} AddingOnly(b: int, es: History, k: nat)
    requires b >= 0 && k < MIXED && AllWellTagged(es)
    ensures NeverNegative(b, OfTable(es, k)) && Net(OfTable(es, k)) >= 0
  {
    if es.Then? {
      AddingOnly(b, es.before, k);
    }
  }

  lemma {:induction false} EarlySafe(b: int, es: History)
    requires b >= 0 && AllWellTagged(es)
    ensures NeverNegative(b, Early(es))
  {
    var t0, t1, t2, t3 := OfTable(es, 0), OfTable(es, 1), OfTable(es, 2), OfTable(es, 3);
    AddingOnly(b, es, 0);
    AddingOnly(b + Net(t0), es, 1);
    NeverNegativeAppend(b, t0, t1);
    NetAppend(t0, t1);
    AddingOnly(b + Net(t0) + Net(t1), es, 2);
    NeverNegativeAppend(b, Append(t0, t1), t2);
    NetAppend(Append(t0, t1), t2);
    AddingOnly(b + Net(t0) + Net(t1) + Net(t2), es, 3);
    NeverNegativeAppend(b, Append(Append(t0, t1), t2), t3);
  }

  /** A table whose events only take is safe as soon as its end is. */
  lemma {:induction false} TakingOnly(b: int, es: History)
    requires AllWellTagged(es)
    ensures NeverNegative(b, OfTable(es, TAKING)) <==> b + Net(OfTable(es, TAKING)) >= 0
    ensures Net(OfTable(es, TAKING)) <= 0
  {
    if es.Then? {
      TakingOnly(b, es.before);
    }
  }

  lemma {:induction false} NeverNegativeMore(b: int, b': int, es: History)
    requires b <= b' && NeverNegative(b, es)
    ensures NeverNegative(b', es)
  {
    if es.Then? {
      NeverNegativeMore(b, b', es.before);
    }
  }

  /** The mixed table stays covered when everything that adds is pulled in front of it. */
  lemma {:induction false} MixedCovered(b: int, es: History)
    requires AllWellTagged(es) && NeverNegative(b, es)
    ensures NeverNegative(b + Net(Early(es)), OfTable(es, MIXED))
  {
    match es
    case Start => EarlyNet(es);
    case Then(before, last) =>
      MixedCovered(b, before);
      EarlyNetLast(before, last);
      NeverNegativeMore(b + Net(Early(before)), b + Net(Early(es)), OfTable(before, MIXED));
      TablesAddUp(es);
      TakingOnly(0, es);
  }

  /**
   * Exactly when the sorted replay is safe: the mixed table is covered once everything that
   * adds has been counted, and the batch ends without a deficit.
   */
  lemma {:induction false} SortedSafeExactly(b: int, es: History)
    requires b >= 0 && AllWellTagged(es)
    ensures NeverNegative(b, Sorted(es)) <==>
      && NeverNegative(b + Net(Early(es)), OfTable(es, MIXED))
      && b + Net(es) >= 0
  {
    var front := Append(Early(es), OfTable(es, MIXED));
    EarlySafe(b, es);
    NeverNegativeAppend(b, Early(es), OfTable(es, MIXED));
    NetAppend(Early(es), OfTable(es, MIXED));
    NeverNegativeAppend(b, front, OfTable(es, TAKING));
    TablesAddUp(es);
    TakingOnly(b + Net(front), es);
  }

  /** The reordering theorem: a history that is never in deficit has a replay that never is. */
  lemma {:induction false} SortingIsSafe(b: int, es: History)
    requires AllWellTagged(es) && b >= 0 && NeverNegative(b, es)
    ensures NeverNegative(b, Sorted(es))
  {
    MixedCovered(b, es);
    SortedSafeExactly(b, es);
  }

  /**
   * The converse fails: take `x` out and put `y` back later.  From `b` this is a deficit as soon as
   * `x` exceeds `b`, but the replay sees one only if `x` exceeds both together.
   */
  lemma {:induction false} SortingHidesDeficits(b: nat, x: nat, y: nat)
    ensures var es := Then(Then(Start, Event(TAKING, 0 - x)), Event(0, y));
      && AllWellTagged(es)
      && (NeverNegative(b, es) <==> x <= b)
      && (NeverNegative(b, Sorted(es)) <==> x <= b + y)
      && OfTable(es, MIXED) == Start && Net(es) == y - x && b + Net(Early(es)) >= 0
  {
    var first := Then(Start, Event(TAKING, 0 - x));
    var es := Then(first, Event(0, y));
    assert AllWellTagged(Start) && AllWellTagged(first);
    assert Net(Start) == 0 && Net(first) == 0 - x;
    assert NeverNegative(b, Start) && (NeverNegative(b, first) <==> x <= b);
    assert OfTable(Start, MIXED) == Start && OfTable(first, MIXED) == Start;
    EarlySafe(b, es);
    SortedSafeExactly(b, es);
  }
}
