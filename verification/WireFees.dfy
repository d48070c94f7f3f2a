/** The aggregation auditor's list of wire fees, and whether it answers like the database it caches. */
module WireFees {
  type Method = string
  type Time = nat

  /** A fee in effect from `start` (inclusive) to `end` (exclusive). */
  datatype Period = Period(start: Time, end: Time, fee: nat)
  datatype Row = Row(wireMethod: Method, period: Period)
  datatype Answer = Unknown | Fee(fee: nat)

  predicate Covers(p: Period, t: Time) { p.start <= t < p.end }

  predicate Overlap(p: Period, q: Period) { exists t | p.start <= t < p.end :: Covers(q, t) }

  /** The fee table of the exchange; a query succeeds if it finds exactly one row. */
  function Matching(table: seq<Row>, m: Method, t: Time): seq<Period> {
    if table == [] then []
    else if table[0].wireMethod == m && Covers(table[0].period, t) then
      [table[0].period] + Matching(table[1..], m, t)
    else Matching(table[1..], m, t)
  }

  function Query(table: seq<Row>, m: Method, t: Time): seq<Period> {
    if |Matching(table, m, t)| == 1 then Matching(table, m, t) else []
  }

  /** What a direct look into the database answers. */
  function FeeAt(table: seq<Row>, m: Method, t: Time): Answer {
    if Query(table, m, t) == [] then Unknown else Fee(Query(table, m, t)[0].fee)
  }

  // ----- the cached list -----

  datatype Scan = Hit(period: Period) | Miss(pos: nat)

  /** Walk the list until a period covers the time or starts after it. */
  function Find(list: seq<Period>, t: Time, i: nat): (r: Scan)
    requires i <= |list|
    ensures r.Hit? ==> r.period in list && Covers(r.period, t)
    ensures r.Miss? ==> i <= r.pos <= |list| && (r.pos < |list| ==> list[r.pos].start > t)
    ensures r.Miss? ==> forall k | i <= k < r.pos :: list[k].start <= t && list[k].end <= t
    decreases |list| - i
  {
    if i == |list| then Miss(i)
    else if Covers(list[i], t) then Hit(list[i])
    else if list[i].start > t then Miss(i)
    else Find(list, t, i + 1)
  }

  /** A newly loaded period goes before the place where the walk stopped, or to the front if it ran off the end. */
  function Insert(list: seq<Period>, pos: nat, p: Period): seq<Period>
    requires pos <= |list|
  {
    if pos == |list| || pos == 0 then [p] + list else list[..pos] + [p] + list[pos..]
  }

  function AnswerOf(table: seq<Row>, list: seq<Period>, m: Method, t: Time): Answer {
    var found := Find(list, t, 0);
    if found.Hit? then Fee(found.period.fee) else FeeAt(table, m, t)
  }

  function ListAfter(table: seq<Row>, list: seq<Period>, m: Method, t: Time): seq<Period> {
    var found := Find(list, t, 0);
    if found.Hit? || Query(table, m, t) == [] then list
    else Insert(list, found.pos, Query(table, m, t)[0])
  }

  /** Diagnostics about the fee periods. */
  datatype Report = BeforePrevious | AfterNext

  class FeeCache {
    var list: seq<Period>

    constructor ()
      ensures list == []
    {
      list := [];
    }

    method GetWireFee(table: seq<Row>, m: Method, t: Time) returns (fee: Answer, reports: set<Report>)
      modifies this`list
      ensures fee == AnswerOf(table, old(list), m, t)
      ensures list == ListAfter(table, old(list), m, t)
      ensures |list| == |old(list)| ==> reports == {}
      ensures Find(old(list), t, 0).Miss? && Query(table, m, t) != [] ==>
        reports == ReportsOf(old(list), Find(old(list), t, 0).pos, Query(table, m, t)[0])
    {
      var pos := 0;
      while pos < |list| && list[pos].start <= t
        invariant pos <= |list| && list == old(list)
        invariant Find(list, t, 0) == Find(list, t, pos)
      {
        if list[pos].start <= t && list[pos].end > t {
          return Fee(list[pos].fee), {};
        }
        pos := pos + 1;
      }
      var loaded := Query(table, m, t);
      if loaded == [] {
        return Unknown, {};
      }
      reports := Keep(pos, loaded[0]);
      fee := Fee(loaded[0].fee);
    }

    /** Insert a newly loaded period and compare it with its neighbours. */
    method Keep(pos: nat, p: Period) returns (reports: set<Report>)
      requires pos <= |list|
      modifies this`list
      ensures list == Insert(old(list), pos, p) && reports == ReportsOf(old(list), pos, p)
    {
      var at := if pos == |list| then 0 else pos;
      list := list[..at] + [p] + list[at..];
      reports := {};
      if at > 0 && list[at - 1].end > p.start {
        reports := reports + {BeforePrevious};
      }
      if at + 1 < |list| && list[at + 1].start >= p.end {
        reports := reports + {AfterNext};
      }
    }
  }

  /** What is reported when a period is inserted. */
  function ReportsOf(list: seq<Period>, pos: nat, p: Period): set<Report>
    requires pos <= |list|
  {
    var at := if pos == |list| then 0 else pos;
    (if at > 0 && list[at - 1].end > p.start then {BeforePrevious} else {})
    + (if at < |list| && list[at].start >= p.end then {AfterNext} else {})
  }

  /**
   * The diagnostic about the previous period is exact.  The one about the next period is the
   * reverse of what it says: it appears exactly when there is a later period that the new one
   * does not run into.
   */
  lemma {:induction false} ReportsMeaning(list: seq<Period>, t: Time, p: Period)
    requires Find(list, t, 0).Miss? && Covers(p, t)
    requires forall q | q in list :: q.start < q.end
    ensures var pos := Find(list, t, 0).pos;
      && (BeforePrevious in ReportsOf(list, pos, p) <==> 0 < pos < |list| && Overlap(list[pos - 1], p))
      && (AfterNext in ReportsOf(list, pos, p) <==> pos < |list| && !Overlap(list[pos], p))
  {
    var pos := Find(list, t, 0).pos;
    if 0 < pos < |list| {
      var q := list[pos - 1];
      if q.end > p.start {
        assert Covers(q, q.end - 1) && Covers(p, q.end - 1);
      }
    }
    if pos < |list| {
      var q := list[pos];
      if q.start < p.end {
        assert Covers(q, q.start) && Covers(p, q.start);
      }
    }
  }

  /** Periods one after the other, none overlapping the next. */
  predicate InOrder(list: seq<Period>) {
    && (forall p | p in list :: p.start < p.end)
    && forall i, j | 0 <= i < j < |list| :: list[i].end <= list[j].start
  }

  /** Inserting in the middle keeps an ordered list in order, if the new period overlaps neither neighbour. */
  lemma {:induction false} MiddleKeepsOrder(list: seq<Period>, t: Time, p: Period)
    requires InOrder(list) && p.start < p.end && Covers(p, t) && Find(list, t, 0).Miss?
    requires var pos := Find(list, t, 0).pos;
      0 < pos < |list| && list[pos - 1].end <= p.start && p.end <= list[pos].start
    ensures InOrder(Insert(list, Find(list, t, 0).pos, p))
  {
    InsertKeepsOrder(list, Find(list, t, 0).pos, p);
  }

  lemma {:induction false} InsertKeepsOrder(list: seq<Period>, pos: nat, p: Period)
    requires InOrder(list) && p.start < p.end && 0 < pos < |list|
    requires list[pos - 1].end <= p.start && p.end <= list[pos].start
    ensures InOrder(Insert(list, pos, p))
  {
    var more := Insert(list, pos, p);
    assert |more| == |list| + 1;
    assert forall i | 0 <= i < pos :: more[i] == list[i];
    assert forall i | pos < i < |more| :: more[i] == list[i - 1];
    forall i | 0 <= i < pos ensures list[i].end <= p.start {
      assert list[i] in list && list[pos - 1] in list;
    }
    forall i | pos <= i < |list| ensures p.end <= list[i].start {
      assert list[i] in list && list[pos] in list;
    }
    forall i, j | 0 <= i < j < |more| ensures more[i].end <= more[j].start {
    }
  }

  // ----- any sequence of calls -----

  datatype Call = Call(wireMethod: Method, time: Time)

  function Answers(table: seq<Row>, list: seq<Period>, calls: seq<Call>): seq<Answer>
    decreases |calls|
  {
    if calls == [] then []
    else
      [AnswerOf(table, list, calls[0].wireMethod, calls[0].time)]
      + Answers(table, ListAfter(table, list, calls[0].wireMethod, calls[0].time), calls[1..])
  }

  function DirectAnswers(table: seq<Row>, calls: seq<Call>): seq<Answer> {
    if calls == [] then []
    else [FeeAt(table, calls[0].wireMethod, calls[0].time)] + DirectAnswers(table, calls[1..])
  }

  predicate Uses(calls: seq<Call>, methods: set<Method>) { forall c | c in calls :: c.wireMethod in methods }

  /** No two fee periods of one wire method overlap. */
  predicate Disjoint(table: seq<Row>) {
    forall i, j | 0 <= i < j < |table| && table[i].wireMethod == table[j].wireMethod ::
      table[i].period.end <= table[j].period.start || table[j].period.end <= table[i].period.start
  }

  /** At every time, all these wire methods have the same fee. */
  ghost predicate SameFees(table: seq<Row>, methods: set<Method>) {
    forall m, n, t | m in methods && n in methods :: FeeAt(table, m, t) == FeeAt(table, n, t)
  }

  /** Everything in the list came from the table, under one of these methods. */
  predicate FromTable(table: seq<Row>, methods: set<Method>, list: seq<Period>) {
    forall p | p in list :: exists m | m in methods :: Row(m, p) in table
  }

  lemma {:induction false} MatchingMeaning(table: seq<Row>, m: Method, t: Time)
    ensures forall p :: p in Matching(table, m, t) <==> Row(m, p) in table && Covers(p, t)
    ensures (forall i | 0 <= i < |table| && table[i].wireMethod == m :: !Covers(table[i].period, t))
      ==> Matching(table, m, t) == []
  {
    if table != [] {
      MatchingMeaning(table[1..], m, t);
      assert table == [table[0]] + table[1..];
    }
  }

  /** The database answers only if exactly one row of the method is in effect, from its start on and before its end. */
  lemma {:induction false} FeeAtExactly(table: seq<Row>, m: Method, t: Time)
    ensures |Matching(table, m, t)| == |Hits(table, m, t)|
    ensures FeeAt(table, m, t).Fee? <==> |Hits(table, m, t)| == 1
    ensures FeeAt(table, m, t).Fee? ==> FeeAt(table, m, t).fee == Hits(table, m, t)[0].period.fee
  {
    MatchingHits(table, m, t);
  }

  /** The rows of the method that are in effect. */
  function Hits(table: seq<Row>, m: Method, t: Time): seq<Row> {
    if table == [] then []
    else if table[0].wireMethod == m && table[0].period.start <= t && t < table[0].period.end then
      [table[0]] + Hits(table[1..], m, t)
    else Hits(table[1..], m, t)
  }

  lemma {:induction false} MatchingHits(table: seq<Row>, m: Method, t: Time)
    ensures |Matching(table, m, t)| == |Hits(table, m, t)|
    ensures forall i | 0 <= i < |Hits(table, m, t)| :: Matching(table, m, t)[i] == Hits(table, m, t)[i].period
  {
    if table != [] {
      MatchingHits(table[1..], m, t);
    }
  }

  /** With disjoint periods, the database finds any row of the method that covers the time. */
  lemma {:induction false} QueryFinds(table: seq<Row>, m: Method, t: Time, p: Period)
    requires Disjoint(table) && Row(m, p) in table && Covers(p, t)
    ensures Query(table, m, t) == [p]
  {
    var rest := table[1..];
    assert table == [table[0]] + rest;
    if table[0].wireMethod == m && Covers(table[0].period, t) {
      forall j | 0 <= j < |rest| && rest[j].wireMethod == m ensures !Covers(rest[j].period, t) {
        assert table[j + 1] == rest[j];
      }
      MatchingMeaning(rest, m, t);
      MatchingMeaning(table, m, t);
    } else {
      assert forall i | 0 <= i < |rest| :: rest[i] == table[i + 1];
      QueryFinds(rest, m, t, p);
    }
  }

  lemma {:induction false} ListStaysFromTable(
    table: seq<Row>, methods: set<Method>, list: seq<Period>, m: Method, t: Time)
    requires FromTable(table, methods, list) && m in methods
    ensures FromTable(table, methods, ListAfter(table, list, m, t))
  {
    if Query(table, m, t) != [] {
      MatchingMeaning(table, m, t);
      var p := Query(table, m, t)[0];
      assert p in Matching(table, m, t);
      assert forall q | q in ListAfter(table, list, m, t) :: q in list || q == p;
    }
  }

  lemma {:induction false} AnswerIsDirect(table: seq<Row>, methods: set<Method>, list: seq<Period>, m: Method, t: Time)
    requires Disjoint(table) && SameFees(table, methods) && FromTable(table, methods, list) && m in methods
    ensures AnswerOf(table, list, m, t) == FeeAt(table, m, t)
  {
    var found := Find(list, t, 0);
    if found.Hit? {
      var n :| n in methods && Row(n, found.period) in table;
      QueryFinds(table, n, t, found.period);
      assert FeeAt(table, m, t) == FeeAt(table, n, t);
    }
  }

  /** If the methods have the same fees, every sequence of calls is answered as the database would. */
  lemma {:induction false} CacheIsTransparent(
    table: seq<Row>, methods: set<Method>, list: seq<Period>, calls: seq<Call>)
    requires Disjoint(table) && SameFees(table, methods) && FromTable(table, methods, list) && Uses(calls, methods)
    ensures Answers(table, list, calls) == DirectAnswers(table, calls)
    decreases |calls|
  {
    if calls != [] {
      var m, t := calls[0].wireMethod, calls[0].time;
      AnswerIsDirect(table, methods, list, m, t);
      ListStaysFromTable(table, methods, list, m, t);
      CacheIsTransparent(table, methods, ListAfter(table, list, m, t), calls[1..]);
    }
  }

  /** One wire method never confuses the cache. */
  lemma {:induction false} OneMethodIsTransparent(table: seq<Row>, m: Method, calls: seq<Call>)
    requires Disjoint(table) && Uses(calls, {m})
    ensures Answers(table, [], calls) == DirectAnswers(table, calls)
  {
    CacheIsTransparent(table, {m}, [], calls);
  }

  /** Asking for one method and then for another, at the same time, returns the first one's fee twice. */
  lemma {:induction false} SecondMethodGetsFirstFee(table: seq<Row>, m: Method, n: Method, t: Time)
    requires FeeAt(table, m, t).Fee?
    ensures Answers(table, [], [Call(m, t), Call(n, t)]) == [FeeAt(table, m, t), FeeAt(table, m, t)]
  {
    var p := Query(table, m, t)[0];
    MatchingMeaning(table, m, t);
    assert p in Matching(table, m, t);
    assert ListAfter(table, [], m, t) == [p];
    assert [Call(m, t), Call(n, t)][1..] == [Call(n, t)];
    assert AnswerOf(table, [p], n, t) == Fee(p.fee);
    assert [Call(n, t)][1..] == [];
    assert Answers(table, [p], [Call(n, t)]) == [Fee(p.fee)];
  }

  /** The list is not keyed by wire method: it answers correctly exactly when the methods have the same fees. */
  lemma {:induction false} CacheIsExactly(table: seq<Row>, methods: set<Method>)
    requires Disjoint(table)
    ensures SameFees(table, methods)
      <==> forall calls | Uses(calls, methods) :: Answers(table, [], calls) == DirectAnswers(table, calls)
  {
    if SameFees(table, methods) {
      forall calls | Uses(calls, methods) ensures Answers(table, [], calls) == DirectAnswers(table, calls) {
        CacheIsTransparent(table, methods, [], calls);
      }
    } else {
      var m, n, t :| m in methods && n in methods && FeeAt(table, m, t) != FeeAt(table, n, t);
      var a, b := if FeeAt(table, m, t).Fee? then m else n, if FeeAt(table, m, t).Fee? then n else m;
      var calls := [Call(a, t), Call(b, t)];
      SecondMethodGetsFirstFee(table, a, b, t);
      assert Uses(calls, methods);
      assert calls[1..] == [Call(b, t)];
      assert [Call(b, t)][1..] == [];
      assert DirectAnswers(table, [Call(b, t)]) == [FeeAt(table, b, t)];
      assert DirectAnswers(table, calls)[1] == FeeAt(table, b, t);
      assert Answers(table, [], calls) != DirectAnswers(table, calls);
    }
  }

  /** The list may lose its order and hold a period twice:
      ask for an earlier time, a later one, and the earlier again. */
  lemma {:induction false} ListCanDegrade(p: Period, q: Period, m: Method)
    requires p.start < p.end <= q.start < q.end
    ensures var table := [Row(m, p), Row(m, q)];
      var once := ListAfter(table, [], m, p.start);
      var twice := ListAfter(table, once, m, q.start);
      && twice == [q, p]
      && ListAfter(table, twice, m, p.start) == [p, q, p]
  {
    var table := [Row(m, p), Row(m, q)];
    QueryFinds(table, m, p.start, p);
    QueryFinds(table, m, q.start, q);
    assert ListAfter(table, [], m, p.start) == [p];
    assert Find([p], q.start, 0) == Find([p], q.start, 1);
    assert ListAfter(table, [p], m, q.start) == [q, p];
    assert Find([q, p], p.start, 0) == Miss(0);
  }
}
