/**
 * The wire auditor's reconciliation of bank debits with the exchange's outgoing transfers and
 * reserve closures.
 */
module Wire {
  import opened Sums
  import opened Bags
  import opened Text

  type Wtid = nat

  datatype Debit = Debit(wtid: Wtid, account: Text, amount: nat)
  datatype WireOut = WireOut(id: nat, wtid: Wtid, account: Text, amount: nat)
  datatype Closure = Closure(id: nat, wtid: Wtid, account: Text, amountWithFee: nat, fee: nat)

  /** A closure as it is kept until the bank shows the transfer. */
  datatype Pending = Pending(wtid: Wtid, account: Text, amount: nat)

  /** What identifies a transfer when debits and their justifications are matched up; case does not count. */
  datatype Key = Key(wtid: Wtid, account: Text, amount: nat)

  function DebitKey(d: Debit): Key { Key(d.wtid, Lower(d.account), d.amount) }
  function RowKey(row: WireOut): Key { Key(row.wtid, Lower(row.account), row.amount) }
  function PendingKey(p: Pending): Key { Key(p.wtid, Lower(p.account), p.amount) }

  // ----- closures -----

  /** A closing fee above the amount makes the auditor skip the closure. */
  predicate Accepted(c: Closure) { c.fee <= c.amountWithFee }

  function PendingOf(c: Closure): Pending
    requires Accepted(c)
  {
    Pending(c.wtid, c.account, c.amountWithFee - c.fee)
  }

  /** Only a closure with exactly this account string is looked up. */
  predicate Matches(p: Pending, d: Debit) { p == Pending(d.wtid, d.account, d.amount) }

  predicate Matched(closures: map<nat, Pending>, d: Debit) {
    exists i | i in closures :: Matches(closures[i], d)
  }

  function DebitAmount(d: Debit): int { d.amount }
  function RowAmount(row: WireOut): int { row.amount }
  function PendingAmount(p: Pending): int { p.amount }
  function ClosureAmount(c: Closure): int { if Accepted(c) then c.amountWithFee - c.fee else 0 }

  /** The keys of debits, rows and closures. */
  function DebitKeys(d: Debit): multiset<Key> { multiset{DebitKey(d)} }
  function RowKeys(row: WireOut): multiset<Key> { multiset{RowKey(row)} }
  function ClosureKeys(c: Closure): multiset<Key> {
    if Accepted(c) then multiset{PendingKey(PendingOf(c))} else multiset{}
  }

  /** Whether they have a given key, as a number. */
  function DebitHas(k: Key): Debit -> int { (d: Debit) => if DebitKey(d) == k then 1 else 0 }
  function RowHas(k: Key): WireOut -> int { (row: WireOut) => if RowKey(row) == k then 1 else 0 }
  function PendingHas(k: Key): Pending -> int { (p: Pending) => if PendingKey(p) == k then 1 else 0 }
  function ClosureHas(k: Key): Closure -> int {
    (c: Closure) => if Accepted(c) && PendingKey(PendingOf(c)) == k then 1 else 0
  }

  /** What the leftover debit adds to the unjustified transfers. */
  function Unjustified(closures: map<nat, Pending>): Debit -> int {
    (d: Debit) => if Matched(closures, d) then 0 else d.amount
  }

  /** What has been read so far. */
  datatype Trail = Trail(debits: seq<Debit>, rows: seq<WireOut>, closures: seq<Closure>)

  /** Debits and justifications agree, key by key, apart from what is still open on either side. */
  ghost predicate Agree(seen: Trail, closures: map<nat, Pending>, out: map<Wtid, Debit>) {
    forall k :: Sum(seen.debits, DebitHas(k)) + Total(closures, PendingHas(k))
      == Sum(seen.rows, RowHas(k)) + Sum(seen.closures, ClosureHas(k)) + Total(out, DebitHas(k))
  }

  lemma {:induction false} AgreeAfterClosure(
    seen: Trail, closures: map<nat, Pending>, out: map<Wtid, Debit>, c: Closure)
    requires Agree(seen, closures, out) && c.id !in closures
    ensures Agree(seen.(closures := seen.closures + [c]),
                  if Accepted(c) then closures[c.id := PendingOf(c)] else closures, out)
  {
    forall k
      ensures Sum(seen.closures + [c], ClosureHas(k)) == Sum(seen.closures, ClosureHas(k)) + ClosureHas(k)(c)
      ensures Accepted(c) ==>
        Total(closures[c.id := PendingOf(c)], PendingHas(k)) == Total(closures, PendingHas(k)) + ClosureHas(k)(c)
    {
      SumSnoc(seen.closures, c, ClosureHas(k));
      if Accepted(c) {
        TotalUpdate(closures, c.id, PendingOf(c), PendingHas(k));
      }
    }
  }

  lemma {:induction false} AgreeAfterDebit(seen: Trail, closures: map<nat, Pending>, out: map<Wtid, Debit>, d: Debit)
    requires Agree(seen, closures, out) && d.wtid !in out
    ensures Agree(seen.(debits := seen.debits + [d]), closures, out[d.wtid := d])
  {
    forall k
      ensures Sum(seen.debits + [d], DebitHas(k)) == Sum(seen.debits, DebitHas(k)) + DebitHas(k)(d)
      ensures Total(out[d.wtid := d], DebitHas(k)) == Total(out, DebitHas(k)) + DebitHas(k)(d)
    {
      SumSnoc(seen.debits, d, DebitHas(k));
      TotalUpdate(out, d.wtid, d, DebitHas(k));
    }
  }

  lemma {:induction false} AgreeAfterRow(seen: Trail, closures: map<nat, Pending>, out: map<Wtid, Debit>, row: WireOut)
    requires Agree(seen, closures, out) && row.wtid in out && DebitKey(out[row.wtid]) == RowKey(row)
    ensures Agree(seen.(rows := seen.rows + [row]), closures, out - {row.wtid})
  {
    forall k
      ensures Sum(seen.rows + [row], RowHas(k)) == Sum(seen.rows, RowHas(k)) + RowHas(k)(row)
      ensures Total(out, DebitHas(k)) == Total(out - {row.wtid}, DebitHas(k)) + RowHas(k)(row)
    {
      SumSnoc(seen.rows, row, RowHas(k));
      TotalRemove(out, row.wtid, DebitHas(k));
    }
  }

  lemma {:induction false} AgreeAfterMatch(
    seen: Trail, closures: map<nat, Pending>, out: map<Wtid, Debit>, i: nat, t: Wtid)
    requires Agree(seen, closures, out) && i in closures && t in out && Matches(closures[i], out[t])
    ensures Agree(seen, closures - {i}, out - {t})
  {
    forall k
      ensures Total(closures, PendingHas(k)) == Total(closures - {i}, PendingHas(k)) + DebitHas(k)(out[t])
      ensures Total(out, DebitHas(k)) == Total(out - {t}, DebitHas(k)) + DebitHas(k)(out[t])
    {
      TotalRemove(closures, i, PendingHas(k));
      TotalRemove(out, t, DebitHas(k));
    }
  }

  /** With nothing open, debits and justifications are equal as multisets of keys. */
  lemma {:induction false} AgreeInTheEnd(seen: Trail)
    requires Agree(seen, map[], map[])
    ensures Bag(seen.debits, DebitKeys) == Bag(seen.rows, RowKeys) + Bag(seen.closures, ClosureKeys)
  {
    forall k
      ensures Bag(seen.debits, DebitKeys)[k] == Bag(seen.rows, RowKeys)[k] + Bag(seen.closures, ClosureKeys)[k]
    {
      DebitsCounted(seen.debits, k);
      RowsCounted(seen.rows, k);
      ClosuresCounted(seen.closures, k);
      assert Sum(seen.debits, DebitHas(k)) == Sum(seen.rows, RowHas(k)) + Sum(seen.closures, ClosureHas(k));
    }
  }

  lemma {:induction false} DebitsCounted(s: seq<Debit>, k: Key)
    ensures Bag(s, DebitKeys)[k] == Sum(s, DebitHas(k))
  {
    BagCounts(s, DebitKeys, k, DebitHas(k));
  }

  lemma {:induction false} RowsCounted(s: seq<WireOut>, k: Key)
    ensures Bag(s, RowKeys)[k] == Sum(s, RowHas(k))
  {
    BagCounts(s, RowKeys, k, RowHas(k));
  }

  lemma {:induction false} ClosuresCounted(s: seq<Closure>, k: Key)
    ensures Bag(s, ClosureKeys)[k] == Sum(s, ClosureHas(k))
  {
    BagCounts(s, ClosureKeys, k, ClosureHas(k));
  }

  /** What the part of an audit that reads debits and transfers changes, apart from what it reports. */
  datatype Tally = Tally(debited: int, justified: int, seen: Trail, closures: map<nat, Pending>)

  /** Between two moments exactly these debits and transfers were read. */
  ghost predicate Reads(before: Tally, after: Tally, debits: seq<Debit>, rows: seq<WireOut>) {
    && after.debited == before.debited + Sum(debits, DebitAmount)
    && after.justified == before.justified + Sum(rows, RowAmount)
    && after.seen == before.seen.(debits := before.seen.debits + debits, rows := before.seen.rows + rows)
    && LeftOver(before.closures, after.closures, debits)
  }

  lemma {:induction false} ReadsNothing(a: Tally)
    ensures Reads(a, a, [], [])
  {
    assert a.seen.debits + [] == a.seen.debits && a.seen.rows + [] == a.seen.rows;
  }

  lemma {:induction false} ReadsThen(
    a: Tally, b: Tally, c: Tally, debits: seq<Debit>, rows: seq<WireOut>, debits': seq<Debit>, rows': seq<WireOut>)
    requires Reads(a, b, debits, rows) && Reads(b, c, debits', rows')
    ensures Reads(a, c, debits + debits', rows + rows')
  {
    SumAppend(debits, debits', DebitAmount);
    SumAppend(rows, rows', RowAmount);
    LeftOverThen(a.closures, b.closures, c.closures, debits, debits');
  }

  /** Some debits have been taken out, and the closures that matched them are gone with them. */
  ghost predicate Draining(
    all: map<nat, Pending>, closures: map<nat, Pending>, out: map<Wtid, Debit>, left: map<Wtid, Debit>)
  {
    && (forall t | t in left :: t in out && left[t] == out[t] && left[t].wtid == t)
    && (forall i | i in closures :: i in all && closures[i] == all[i])
    && (forall i | i in all && i !in closures ::
          var t := all[i].wtid; t !in left && t in out && Matches(all[i], out[t]))
  }

  /** Different debits have different subjects, so none takes a closure from another. */
  lemma {:induction false} StillMatched(
    all: map<nat, Pending>, closures: map<nat, Pending>, out: map<Wtid, Debit>, left: map<Wtid, Debit>, t: Wtid)
    requires Draining(all, closures, out, left) && t in left
    ensures Matched(closures, left[t]) == Matched(all, left[t])
    ensures Unjustified(all)(left[t]) == Unjustified(closures)(left[t])
  {
    if i :| i in all && Matches(all[i], left[t]) {
      assert i in closures;
    }
  }

  lemma {:induction false} DrainOneMore(
    all: map<nat, Pending>, before: map<nat, Pending>, after: map<nat, Pending>,
    out: map<Wtid, Debit>, left: map<Wtid, Debit>, t: Wtid)
    requires Draining(all, before, out, left) && t in left
    requires after == before || exists i | i in before :: Matches(before[i], left[t]) && after == before - {i}
    ensures Draining(all, after, out, left - {t})
  {
  }

  class WireAuditor {
    var outMap: map<Wtid, Debit>
    var closures: map<nat, Pending>
    var outPlus: nat
    var outMinus: nat
    var duplicates: nat
    var lag: nat
    var reports: nat
    var closeCheckpoint: nat
    ghost var debited: int
    ghost var justified: int
    ghost var seen: Trail

    /**
     * The books balance; and as long as nothing was reported, debits and justifications agree as
     * multisets of keys, apart from what is still open on either side.
     */
    ghost predicate Balanced()
      reads this
    {
      && debited + outMinus + Total(closures, PendingAmount)
         == duplicates + justified + outPlus + Total(outMap, DebitAmount)
      && (reports == 0 ==> Agree(seen, closures, outMap))
      && forall t | t in outMap :: outMap[t].wtid == t
    }

    ghost function TallyNow(): Tally
      reads this
    {
      Tally(debited, justified, seen, closures)
    }

    constructor (checkpoint: nat)
      ensures Balanced() && outMap == map[] && closures == map[]
      ensures outPlus == outMinus == duplicates == lag == reports == 0 && closeCheckpoint == checkpoint
      ensures debited == justified == 0 && seen == Trail([], [], [])
    {
      outMap, closures, closeCheckpoint := map[], map[], checkpoint;
      outPlus, outMinus, duplicates, lag, reports := 0, 0, 0, 0, 0;
      debited, justified, seen := 0, 0, Trail([], [], []);
    }

    method ReserveClosedCb(c: Closure)
      requires Balanced() && c.id !in closures
      modifies this`closures, this`closeCheckpoint, this`reports, this`justified, this`seen
      ensures Balanced()
      ensures closures == if Accepted(c) then old(closures)[c.id := PendingOf(c)] else old(closures)
      ensures closeCheckpoint ==
        if Accepted(c) && c.id + 1 > old(closeCheckpoint) then c.id + 1 else old(closeCheckpoint)
      ensures justified == old(justified) + ClosureAmount(c)
      ensures seen == old(seen).(closures := old(seen).closures + [c])
      ensures reports == old(reports) + if Accepted(c) then 0 else 1
      ensures if c.fee <= c.amountWithFee
              then closures == old(closures)[c.id := Pending(c.wtid, c.account, c.amountWithFee - c.fee)]
              else closures == old(closures) && closeCheckpoint == old(closeCheckpoint)
    {
      if reports == 0 {
        AgreeAfterClosure(seen, closures, outMap, c);
      }
      seen := seen.(closures := seen.closures + [c]);
      if c.amountWithFee < c.fee {
        reports := reports + 1;
        return;
      }
      if c.id + 1 > closeCheckpoint {
        closeCheckpoint := c.id + 1;
      }
      TotalUpdate(closures, c.id, PendingOf(c), PendingAmount);
      closures := closures[c.id := PendingOf(c)];
      justified := justified + ClosureAmount(c);
    }

    method HistoryDebitCb(d: Debit)
      requires Balanced()
      modifies this`outMap, this`duplicates, this`reports, this`debited, this`seen
      ensures Balanced()
      ensures outMap == if d.wtid in old(outMap) then old(outMap) else old(outMap)[d.wtid := d]
      ensures duplicates == old(duplicates) + if d.wtid in old(outMap) then d.amount else 0
      ensures reports == old(reports) + if d.wtid in old(outMap) then 1 else 0
      ensures debited == old(debited) + d.amount
      ensures seen == old(seen).(debits := old(seen).debits + [d])
    {
      debited := debited + d.amount;
      seen := seen.(debits := seen.debits + [d]);
      if d.wtid in outMap {
        duplicates := duplicates + d.amount;
        reports := reports + 1;
        return;
      }
      TotalUpdate(outMap, d.wtid, d, DebitAmount);
      if reports == 0 {
        AgreeAfterDebit(old(seen), closures, outMap, d);
      }
      outMap := outMap[d.wtid := d];
    }

    /** One outgoing transfer of the exchange; the result says whether the bank made such a transfer. */
    method WireOutCb(row: WireOut) returns (found: bool)
      requires Balanced()
      modifies this`outMap, this`outPlus, this`outMinus, this`reports, this`justified, this`seen
      ensures Balanced()
      ensures found == (row.wtid in old(outMap))
      ensures outMap == old(outMap) - {row.wtid}
      ensures justified == old(justified) + row.amount
      ensures seen == old(seen).(rows := old(seen).rows + [row])
      ensures reports == old(reports) <==>
        found && SameText(old(outMap)[row.wtid].account, row.account) && old(outMap)[row.wtid].amount == row.amount
      ensures old(reports) <= reports && old(outPlus) <= outPlus && old(outMinus) <= outMinus
      ensures !found ==> outPlus == old(outPlus) && outMinus == old(outMinus) + row.amount
      ensures found ==>
        var d := old(outMap)[row.wtid];
        if SameText(d.account, row.account) then
          && outPlus == old(outPlus) + Max0(d.amount - row.amount)
          && outMinus == old(outMinus) + Max0(row.amount - d.amount)
        else
          outPlus == old(outPlus) + d.amount && outMinus == old(outMinus) + row.amount
    {
      justified := justified + row.amount;
      seen := seen.(rows := seen.rows + [row]);
      if row.wtid !in outMap {
        reports := reports + 1;
        outMinus := outMinus + row.amount;
        assert outMap - {row.wtid} == outMap;
        return false;
      }
      TotalRemove(outMap, row.wtid, DebitAmount);
      if reports == 0 && DebitKey(outMap[row.wtid]) == RowKey(row) {
        AgreeAfterRow(old(seen), closures, outMap, row);
      }
      BookDifference(outMap[row.wtid], row);
      outMap := outMap - {row.wtid};
      found := true;
    }

    /** Compare a debit with the transfer it carries out. */
    method BookDifference(d: Debit, row: WireOut)
      modifies this`outPlus, this`outMinus, this`reports
      ensures old(reports) <= reports && old(outPlus) <= outPlus && old(outMinus) <= outMinus
      ensures d.amount + outMinus + old(outPlus) == row.amount + outPlus + old(outMinus)
      ensures reports == old(reports) <==> SameText(d.account, row.account) && d.amount == row.amount
      ensures if SameText(d.account, row.account) then
          && outPlus == old(outPlus) + Max0(d.amount - row.amount)
          && outMinus == old(outMinus) + Max0(row.amount - d.amount)
        else
          outPlus == old(outPlus) + d.amount && outMinus == old(outMinus) + row.amount
    {
      if !SameText(row.account, d.account) {
        reports := reports + 2;
        outPlus := outPlus + d.amount;
        outMinus := outMinus + row.amount;
      } else if d.amount != row.amount {
        reports := reports + 1;
        if row.amount > d.amount {
          outMinus := outMinus + (row.amount - d.amount);
        } else {
          outPlus := outPlus + (d.amount - row.amount);
        }
      }
    }

    /** A debit that no outgoing transfer explains: find a closure that does, or complain. */
    method ComplainOutNotFound(t: Wtid)
      requires Balanced() && t in outMap
      modifies this`outMap, this`closures, this`outPlus, this`reports
      ensures Balanced() && outMap == old(outMap) - {t}
      ensures outPlus == old(outPlus) + Unjustified(old(closures))(old(outMap)[t])
      ensures var d := old(outMap)[t];
        if exists i | i in old(closures) :: old(closures)[i] == Pending(d.wtid, d.account, d.amount)
        then outPlus == old(outPlus) else outPlus == old(outPlus) + d.amount
      ensures Matched(old(closures), old(outMap)[t]) ==>
        && reports == old(reports)
        && exists i | i in old(closures) :: Matches(old(closures)[i], old(outMap)[t]) && closures == old(closures) - {i}
      ensures !Matched(old(closures), old(outMap)[t]) ==> reports == old(reports) + 1 && closures == old(closures)
    {
      var d := outMap[t];
      TotalRemove(outMap, t, DebitAmount);
      outMap := outMap - {t};
      if i :| i in closures && Matches(closures[i], d) {
        TotalRemove(closures, i, PendingAmount);
        if reports == 0 {
          AgreeAfterMatch(seen, closures, old(outMap), i, t);
        }
        closures := closures - {i};
      } else {
        reports := reports + 1;
        outPlus := outPlus + d.amount;
      }
    }

    /** All leftover debits, in whatever order the hash map hands them out; the order does not show in the totals. */
    method DrainOutMap()
      requires Balanced()
      modifies this`outMap, this`closures, this`outPlus, this`reports
      ensures Balanced() && outMap == map[]
      ensures outPlus == old(outPlus) + Total(old(outMap), Unjustified(old(closures)))
      ensures forall i | i in closures :: i in old(closures) && closures[i] == old(closures)[i]
      ensures forall i | i in old(closures) && i !in closures ::
        exists t | t in old(outMap) :: Matches(old(closures)[i], old(outMap)[t])
      ensures reports >= old(reports)
    {
      ghost var all, out := closures, outMap;
      while outMap != map[]
        invariant Balanced() && reports >= old(reports)
        invariant Draining(all, closures, out, outMap)
        invariant outPlus + Total(outMap, Unjustified(all)) == old(outPlus) + Total(out, Unjustified(all))
        decreases |outMap|
      {
        var t :| t in outMap;
        ghost var before, left := closures, outMap;
        StillMatched(all, closures, out, outMap, t);
        TotalRemove(outMap, t, Unjustified(all));
        ComplainOutNotFound(t);
        DrainOneMore(all, before, closures, out, left, t);
      }
    }

    /** Read the closures from the checkpoint on; the checkpoint moves past every accepted one. */
    method ReadClosures(rows: seq<Closure>)
      requires Balanced() && UniqueIds(rows) && TallyNow() == AfterClosures([])
      modifies this`closures, this`closeCheckpoint, this`reports, this`justified, this`seen
      ensures Balanced() && TallyNow() == AfterClosures(rows)
      ensures closeCheckpoint == Advanced(old(closeCheckpoint), rows)
    {
      for n := 0 to |rows|
        invariant Balanced() && TallyNow() == AfterClosures(rows[..n])
        invariant closeCheckpoint == Advanced(old(closeCheckpoint), rows[..n])
      {
        OneMoreClosure(rows, n, old(closeCheckpoint));
        ReserveClosedCb(rows[n]);
      }
      assert rows[..|rows|] == rows;
    }

    method ReadDebits(debits: seq<Debit>)
      requires Balanced() && outMap == map[]
      modifies this`outMap, this`duplicates, this`reports, this`debited, this`seen
      ensures Balanced() && reports >= old(reports)
      ensures outMap == DebitMap(debits)
      ensures debited == old(debited) + Sum(debits, DebitAmount)
      ensures seen == old(seen).(debits := old(seen).debits + debits)
    {
      for n := 0 to |debits|
        invariant Balanced() && reports >= old(reports)
        invariant outMap == DebitMap(debits[..n])
        invariant debited == old(debited) + Sum(debits[..n], DebitAmount)
        invariant seen == old(seen).(debits := old(seen).debits + debits[..n])
      {
        OneMoreDebit(debits, n);
        SumPrefix(debits, n, DebitAmount);
        assert old(seen).debits + debits[..n + 1] == old(seen).debits + debits[..n] + [debits[n]];
        HistoryDebitCb(debits[n]);
      }
      assert debits[..|debits|] == debits;
    }

    /** Read the outgoing transfers; the account's checkpoint moves past those the bank has made. */
    method ReadWireOuts(rows: seq<WireOut>, checkpoint: nat) returns (next: nat)
      requires Balanced()
      modifies this`outMap, this`outPlus, this`outMinus, this`reports, this`justified, this`seen
      ensures Balanced() && reports >= old(reports)
      ensures justified == old(justified) + Sum(rows, RowAmount)
      ensures seen == old(seen).(rows := old(seen).rows + rows)
      ensures outMap == old(outMap) - Wtids(rows)
      ensures next == Checkpoint(old(outMap.Keys), rows, checkpoint)
    {
      next := checkpoint;
      for n := 0 to |rows|
        invariant Balanced() && reports >= old(reports)
        invariant justified == old(justified) + Sum(rows[..n], RowAmount)
        invariant seen == old(seen).(rows := old(seen).rows + rows[..n])
        invariant outMap == old(outMap) - Wtids(rows[..n])
        invariant next == Checkpoint(old(outMap.Keys), rows[..n], checkpoint)
      {
        SumPrefix(rows, n, RowAmount);
        OneMoreRow(old(outMap), rows, n, checkpoint);
        assert old(seen).rows + rows[..n + 1] == old(seen).rows + rows[..n] + [rows[n]];
        var found := WireOutCb(rows[n]);
        if found {
          next := rows[n].id + 1;
        }
      }
      assert rows[..|rows|] == rows;
    }

    /** The debits and outgoing transfers of one account. */
    method AuditAccount(debits: seq<Debit>, rows: seq<WireOut>, checkpoint: nat) returns (next: nat)
      requires Balanced() && outMap == map[]
      modifies this`outMap, this`closures, this`outPlus, this`outMinus, this`duplicates, this`reports,
        this`debited, this`justified, this`seen
      ensures Balanced() && outMap == map[] && reports >= old(reports)
      ensures Reads(old(TallyNow()), TallyNow(), debits, rows)
      ensures next == Checkpoint(set d | d in debits :: d.wtid, rows, checkpoint)
    {
      ReadDebits(debits);
      DebitMapMeaning(debits);
      next := ReadWireOuts(rows, checkpoint);
      ghost var left := outMap;
      DrainOutMap();
      forall i | i in old(closures) && i !in closures ensures SomeMatch(old(closures)[i], debits) {
        var t :| t in left && Matches(old(closures)[i], left[t]);
        assert left[t] in debits;
      }
    }

    /** Before committing: closures not seen at the bank are lagging, and will be read again. */
    method CheckPending()
      modifies this`lag, this`closeCheckpoint
      ensures lag == old(lag) + Total(closures, PendingAmount)
      ensures closeCheckpoint <= old(closeCheckpoint) && forall i | i in closures :: closeCheckpoint <= i
      ensures closeCheckpoint == old(closeCheckpoint) || closeCheckpoint in closures
    {
      var todo: map<nat, Pending> := closures;
      while todo != map[]
        invariant forall i | i in todo :: i in closures && todo[i] == closures[i]
        invariant lag + Total(todo, PendingAmount) == old(lag) + Total(closures, PendingAmount)
        invariant closeCheckpoint <= old(closeCheckpoint)
        invariant forall i | i in closures && i !in todo :: closeCheckpoint <= i
        invariant closeCheckpoint == old(closeCheckpoint) || closeCheckpoint in closures
        decreases |todo|
      {
        var i: nat :| i in todo;
        TotalRemove(todo, i, PendingAmount);
        lag := lag + todo[i].amount;
        if i < closeCheckpoint {
          closeCheckpoint := i;
        }
        todo := todo - {i};
      }
    }

    /** All accounts whose debits are watched, one after the other. */
    method AuditAccounts(accounts: seq<Account>) returns (next: seq<nat>)
      requires Balanced() && outMap == map[]
      modifies this`outMap, this`closures, this`outPlus, this`outMinus, this`duplicates, this`reports,
        this`debited, this`justified, this`seen
      ensures Balanced() && outMap == map[] && reports >= old(reports)
      ensures Reads(old(TallyNow()), TallyNow(), AllDebits(accounts), AllRows(accounts))
      ensures |next| == |accounts| && forall n | 0 <= n < |accounts| :: next[n] == NextFor(accounts[n])
    {
      next := [];
      ghost var start := TallyNow();
      ReadsNothing(start);
      for n := 0 to |accounts|
        invariant Balanced() && outMap == map[] && reports >= old(reports)
        invariant Reads(start, TallyNow(), AllDebits(accounts[..n]), AllRows(accounts[..n]))
        invariant |next| == n && forall k | 0 <= k < n :: next[k] == NextFor(accounts[k])
      {
        var c := AuditNext(accounts, n, start);
        next := next + [c];
      }
      assert accounts[..|accounts|] == accounts;
    }

    /** One more account, unless its debits are not watched. */
    method AuditNext(accounts: seq<Account>, n: nat, ghost start: Tally) returns (next: nat)
      requires Balanced() && outMap == map[] && n < |accounts|
      requires Reads(start, TallyNow(), AllDebits(accounts[..n]), AllRows(accounts[..n]))
      modifies this`outMap, this`closures, this`outPlus, this`outMinus, this`duplicates, this`reports,
        this`debited, this`justified, this`seen
      ensures Balanced() && outMap == map[] && reports >= old(reports)
      ensures Reads(start, TallyNow(), AllDebits(accounts[..n + 1]), AllRows(accounts[..n + 1]))
      ensures next == NextFor(accounts[n])
    {
      var a := accounts[n];
      OneMoreAccount(accounts, n);
      next := a.checkpoint;
      if a.watched {
        ghost var before := TallyNow();
        next := AuditAccount(a.debits, a.rows, a.checkpoint);
        ReadsThen(start, before, TallyNow(), AllDebits(accounts[..n]), AllRows(accounts[..n]), a.debits, a.rows);
      }
    }

    /** Read everything, and settle what is pending. */
    method ReadAll(closureRows: seq<Closure>, accounts: seq<Account>) returns (next: seq<nat>, ghost reached: nat)
      requires Balanced() && outMap == map[] && closures == map[] && UniqueIds(closureRows)
      requires debited == justified == 0 && seen == Trail([], [], [])
      requires lag == 0
      modifies this
      ensures Balanced() && outMap == map[]
      ensures Reads(AfterClosures(closureRows), TallyNow(), AllDebits(accounts), AllRows(accounts))
      ensures lag == Total(closures, PendingAmount)
      ensures |next| == |accounts| && forall n | 0 <= n < |accounts| :: next[n] == NextFor(accounts[n])
      ensures reached == Advanced(old(closeCheckpoint), closureRows)
      ensures closeCheckpoint <= reached && forall i | i in closures :: closeCheckpoint <= i
      ensures closeCheckpoint == reached || closeCheckpoint in closures
    {
      assert TallyNow() == AfterClosures([]);
      ReadClosures(closureRows);
      reached := closeCheckpoint;
      next := AuditAccounts(accounts);
      CheckPending();
    }

    /**
     * The whole audit, from a fresh state.  Whatever matched, mismatched or was missing, debits,
     * lagging closures and missing amounts add up to duplicates, transfers, closures and excess
     * amounts.  If nothing was reported and no closure is pending, debits and justifications are
     * the same, transfer by transfer: equal as multisets of subject, account and amount.
     */
    method Audit(closureRows: seq<Closure>, accounts: seq<Account>) returns (next: seq<nat>)
      requires Balanced() && outMap == map[] && closures == map[] && UniqueIds(closureRows)
      requires debited == justified == 0 && seen == Trail([], [], [])
      requires outPlus == outMinus == duplicates == lag == reports == 0
      modifies this
      ensures Sum(AllDebits(accounts), DebitAmount) + lag + outMinus
        == duplicates + Sum(AllRows(accounts), RowAmount) + Sum(closureRows, ClosureAmount) + outPlus
      ensures reports == 0 && closures == map[] ==>
        Bag(AllDebits(accounts), DebitKeys) == Bag(AllRows(accounts), RowKeys) + Bag(closureRows, ClosureKeys)
      ensures |next| == |accounts| && forall n | 0 <= n < |accounts| :: next[n] == NextFor(accounts[n])
      ensures forall n | 0 <= n < |accounts| && !accounts[n].watched :: next[n] == accounts[n].checkpoint
      ensures Audited(closureRows, AllDebits(accounts), closures, lag, closeCheckpoint)
    {
      ghost var reached;
      next, reached := ReadAll(closureRows, accounts);
      ReadInTheEnd(closureRows, AllDebits(accounts), AllRows(accounts), TallyNow());
      AuditedInTheEnd(closureRows, AllDebits(accounts), ClosureMap(closureRows), closures, lag,
                      old(closeCheckpoint), reached, closeCheckpoint);
      if reports == 0 && closures == map[] {
        AgreeInTheEnd(seen);
      }
    }
  }

  /** Where the books stand once the closures have been read. */
  ghost function AfterClosures(rows: seq<Closure>): Tally {
    Tally(0, Sum(rows, ClosureAmount), Trail([], [], rows), ClosureMap(rows))
  }

  lemma {:induction false} ReadInTheEnd(closures: seq<Closure>, debits: seq<Debit>, rows: seq<WireOut>, t: Tally)
    requires Reads(AfterClosures(closures), t, debits, rows)
    ensures t.debited == Sum(debits, DebitAmount)
    ensures t.justified == Sum(rows, RowAmount) + Sum(closures, ClosureAmount)
    ensures t.seen == Trail(debits, rows, closures) && LeftOver(ClosureMap(closures), t.closures, debits)
  {
    assert [] + debits == debits && [] + rows == rows;
  }

  // ----- checkpoints -----

  /** The debits by subject; of several with the same subject the first is kept. */
  function DebitMap(debits: seq<Debit>): map<Wtid, Debit> {
    if debits == [] then map[]
    else
      var d, before := debits[|debits| - 1], DebitMap(debits[..|debits| - 1]);
      if d.wtid in before then before else before[d.wtid := d]
  }

  lemma {:induction false} OneMoreDebit(debits: seq<Debit>, n: nat)
    requires n < |debits|
    ensures debits[..n + 1] == debits[..n] + [debits[n]]
    ensures var before, d := DebitMap(debits[..n]), debits[n];
      DebitMap(debits[..n + 1]) == if d.wtid in before then before else before[d.wtid := d]
  {
    assert debits[..n + 1][..n] == debits[..n];
    assert debits[..n + 1] == debits[..n] + [debits[n]];
  }

  lemma {:induction false} DebitMapMeaning(debits: seq<Debit>)
    ensures DebitMap(debits).Keys == set d | d in debits :: d.wtid
    ensures forall t | t in DebitMap(debits) :: DebitMap(debits)[t] in debits
  {
    if debits != [] {
      var n := |debits| - 1;
      assert debits == debits[..n] + [debits[n]];
      DebitMapMeaning(debits[..n]);
    }
  }

  predicate UniqueIds(rows: seq<Closure>) { forall i, j | 0 <= i < j < |rows| :: rows[i].id != rows[j].id }

  /** The accepted closures, by row. */
  function ClosureMap(rows: seq<Closure>): map<nat, Pending> {
    if rows == [] then map[]
    else
      var c, before := rows[|rows| - 1], ClosureMap(rows[..|rows| - 1]);
      if Accepted(c) then before[c.id := PendingOf(c)] else before
  }

  lemma {:induction false} ClosureMapMeaning(rows: seq<Closure>)
    requires UniqueIds(rows)
    ensures forall i | i in ClosureMap(rows) ::
      exists c | c in rows :: Accepted(c) && c.id == i && ClosureMap(rows)[i] == PendingOf(c)
    ensures forall c | c in rows && Accepted(c) :: c.id in ClosureMap(rows) && ClosureMap(rows)[c.id] == PendingOf(c)
  {
    if rows != [] {
      var n := |rows| - 1;
      assert rows == rows[..n] + [rows[n]];
      assert forall c | c in rows[..n] :: c.id != rows[n].id;
      ClosureMapMeaning(rows[..n]);
    }
  }

  /** One past the highest accepted closure. */
  function Advanced(start: nat, rows: seq<Closure>): nat {
    if rows == [] then start
    else
      var c, before := rows[|rows| - 1], Advanced(start, rows[..|rows| - 1]);
      if Accepted(c) && c.id + 1 > before then c.id + 1 else before
  }

  lemma {:induction false} OneMoreClosure(rows: seq<Closure>, n: nat, start: nat)
    requires n < |rows| && UniqueIds(rows)
    ensures rows[n].id !in ClosureMap(rows[..n])
    ensures var t, c := AfterClosures(rows[..n]), rows[n];
      AfterClosures(rows[..n + 1]) == Tally(
        0, t.justified + ClosureAmount(c), t.seen.(closures := t.seen.closures + [c]),
        if Accepted(c) then t.closures[c.id := PendingOf(c)] else t.closures)
    ensures Advanced(start, rows[..n + 1]) ==
      if Accepted(rows[n]) && rows[n].id + 1 > Advanced(start, rows[..n]) then rows[n].id + 1
      else Advanced(start, rows[..n])
  {
    assert rows[..n + 1][..n] == rows[..n];
    assert rows[..n + 1] == rows[..n] + [rows[n]];
    SumPrefix(rows, n, ClosureAmount);
    ClosureMapMeaning(rows[..n]);
  }

  /** The checkpoint passes every accepted closure, and goes no further. */
  lemma {:induction false} AdvancedPastAll(start: nat, rows: seq<Closure>)
    ensures forall c | c in rows && Accepted(c) :: c.id < Advanced(start, rows)
    ensures start <= Advanced(start, rows)
    ensures Advanced(start, rows) == start
      || exists c | c in rows :: c.fee <= c.amountWithFee && Advanced(start, rows) == c.id + 1
  {
    if rows != [] {
      var n := |rows| - 1;
      assert rows == rows[..n] + [rows[n]];
      AdvancedPastAll(start, rows[..n]);
    }
  }

  function Wtids(rows: seq<WireOut>): set<Wtid> { set row | row in rows :: row.wtid }

  /** The bank made the transfer, and no earlier row has used it up. */
  predicate Found(made: set<Wtid>, rows: seq<WireOut>, i: nat)
    requires i < |rows|
  {
    rows[i].wtid in made && rows[i].wtid !in Wtids(rows[..i])
  }

  /** One past the last row found; rows that were not found do not move it. */
  function Checkpoint(made: set<Wtid>, rows: seq<WireOut>, start: nat): nat {
    if rows == [] then start
    else
      var n := |rows| - 1;
      if Found(made, rows, n) then rows[n].id + 1 else Checkpoint(made, rows[..n], start)
  }

  lemma {:induction false} OneMoreRow(out: map<Wtid, Debit>, rows: seq<WireOut>, n: nat, start: nat)
    requires n < |rows|
    ensures rows[..n + 1] == rows[..n] + [rows[n]]
    ensures out - Wtids(rows[..n]) - {rows[n].wtid} == out - Wtids(rows[..n + 1])
    ensures Checkpoint(out.Keys, rows[..n + 1], start)
      == if rows[n].wtid in out - Wtids(rows[..n]) then rows[n].id + 1 else Checkpoint(out.Keys, rows[..n], start)
  {
    assert rows[..n + 1][..n] == rows[..n];
    assert rows[..n + 1] == rows[..n] + [rows[n]];
    assert Wtids(rows[..n + 1]) == Wtids(rows[..n]) + {rows[n].wtid};
  }

  predicate Ascending(rows: seq<WireOut>, start: nat) {
    && (forall i | 0 <= i < |rows| :: start <= rows[i].id)
    && forall i, j | 0 <= i < j < |rows| :: rows[i].id < rows[j].id
  }

  /**
   * A row whose transfer the bank has not made is looked at again in the next run exactly when
   * no later row was found; otherwise it is never looked at again.
   */
  lemma {:induction false} MissingIsRereadExactly(made: set<Wtid>, rows: seq<WireOut>, start: nat, i: nat)
    requires Ascending(rows, start) && i < |rows| && !Found(made, rows, i)
    ensures rows[i].id >= Checkpoint(made, rows, start) <==> forall j | i < j < |rows| :: !Found(made, rows, j)
  {
    if j :| i < j < |rows| && Found(made, rows, j) {
      FoundPasses(made, rows, start, j);
    } else {
      NothingFoundAfter(made, rows, start, i);
      CheckpointBelow(made, rows[..i], start, rows[i].id);
    }
  }

  lemma {:induction false} FoundPasses(made: set<Wtid>, rows: seq<WireOut>, start: nat, j: nat)
    requires Ascending(rows, start) && j < |rows| && Found(made, rows, j)
    ensures rows[j].id < Checkpoint(made, rows, start)
    decreases |rows|
  {
    var n := |rows| - 1;
    if !Found(made, rows, n) {
      assert rows[..n][..j] == rows[..j];
      FoundPasses(made, rows[..n], start, j);
    }
  }

  lemma {:induction false} NothingFoundAfter(made: set<Wtid>, rows: seq<WireOut>, start: nat, i: nat)
    requires i <= |rows| && forall j | i <= j < |rows| :: !Found(made, rows, j)
    ensures Checkpoint(made, rows, start) == Checkpoint(made, rows[..i], start)
    decreases |rows|
  {
    if i < |rows| {
      var n := |rows| - 1;
      forall j | i <= j < n ensures !Found(made, rows[..n], j) {
        assert rows[..n][..j] == rows[..j];
        assert !Found(made, rows, j);
      }
      NothingFoundAfter(made, rows[..n], start, i);
      assert rows[..n][..i] == rows[..i];
    } else {
      assert rows[..i] == rows;
    }
  }

  lemma {:induction false} CheckpointBelow(made: set<Wtid>, rows: seq<WireOut>, start: nat, id: nat)
    requires start <= id && forall row | row in rows :: row.id < id
    ensures Checkpoint(made, rows, start) <= id
  {
    if rows != [] {
      CheckpointBelow(made, rows[..|rows| - 1], start, id);
    }
  }

  /**
   * Where the next run starts to read closures: no pending closure is left behind; and a closure
   * that was matched is read a second time exactly when an older one is still pending.
   */
  ghost predicate ClosuresCovered(rows: seq<Closure>, pending: set<nat>, next: nat) {
    && (forall i | i in pending :: next <= i)
    && forall c | c in rows && Accepted(c) && c.id !in pending ::
         (c.id >= next <==> exists i | i in pending :: i < c.id)
  }

  lemma {:induction false} CheckpointCovers(rows: seq<Closure>, pending: set<nat>, reached: nat, next: nat)
    requires forall c | c in rows && Accepted(c) :: c.id < reached
    requires next <= reached && forall i | i in pending :: next <= i
    requires next == reached || next in pending
    ensures ClosuresCovered(rows, pending, next)
  {
  }

  // ----- accounts -----

  datatype Account = Account(watched: bool, debits: seq<Debit>, rows: seq<WireOut>, checkpoint: nat)

  /** Where the next run starts to read an account's outgoing transfers. */
  function NextFor(a: Account): nat {
    if a.watched then Checkpoint(set d | d in a.debits :: d.wtid, a.rows, a.checkpoint) else a.checkpoint
  }

  /** The debits and transfers of all accounts that are watched. */
  function AllDebits(accounts: seq<Account>): seq<Debit> {
    if accounts == [] then []
    else
      var a := accounts[|accounts| - 1];
      AllDebits(accounts[..|accounts| - 1]) + if a.watched then a.debits else []
  }

  function AllRows(accounts: seq<Account>): seq<WireOut> {
    if accounts == [] then []
    else
      var a := accounts[|accounts| - 1];
      AllRows(accounts[..|accounts| - 1]) + if a.watched then a.rows else []
  }

  /** They are those of watched accounts, and no others: whatever is summed over them. */
  lemma {:induction false} WatchedDebits(accounts: seq<Account>, f: Debit -> int)
    ensures Sum(AllDebits(accounts), f) == Sum(accounts, OverDebits(f))
  {
    if accounts != [] {
      var n := |accounts| - 1;
      var more := if accounts[n].watched then accounts[n].debits else [];
      WatchedDebits(accounts[..n], f);
      assert accounts == accounts[..n] + [accounts[n]];
      SumSnoc(accounts[..n], accounts[n], OverDebits(f));
      SumAppend(AllDebits(accounts[..n]), more, f);
    }
  }

  lemma {:induction false} WatchedRows(accounts: seq<Account>, f: WireOut -> int)
    ensures Sum(AllRows(accounts), f) == Sum(accounts, OverRows(f))
  {
    if accounts != [] {
      var n := |accounts| - 1;
      var more := if accounts[n].watched then accounts[n].rows else [];
      WatchedRows(accounts[..n], f);
      assert accounts == accounts[..n] + [accounts[n]];
      SumSnoc(accounts[..n], accounts[n], OverRows(f));
      SumAppend(AllRows(accounts[..n]), more, f);
    }
  }

  function OverDebits(f: Debit -> int): Account -> int { (a: Account) => if a.watched then Sum(a.debits, f) else 0 }
  function OverRows(f: WireOut -> int): Account -> int { (a: Account) => if a.watched then Sum(a.rows, f) else 0 }

  lemma {:induction false} OneMoreAccount(accounts: seq<Account>, n: nat)
    requires n < |accounts|
    ensures AllDebits(accounts[..n + 1])
      == if accounts[n].watched then AllDebits(accounts[..n]) + accounts[n].debits else AllDebits(accounts[..n])
    ensures AllRows(accounts[..n + 1])
      == if accounts[n].watched then AllRows(accounts[..n]) + accounts[n].rows else AllRows(accounts[..n])
  {
    assert accounts[..n + 1][..n] == accounts[..n];
    assert AllDebits(accounts[..n]) + [] == AllDebits(accounts[..n]);
    assert AllRows(accounts[..n]) + [] == AllRows(accounts[..n]);
  }

  // ----- closures that come back -----

  /** What is left of the closures: nothing new, and none is gone without a debit that matches it. */
  ghost predicate LeftOver(before: map<nat, Pending>, after: map<nat, Pending>, debits: seq<Debit>) {
    && (forall i | i in after :: i in before && after[i] == before[i])
    && forall i | i in before && i !in after :: SomeMatch(before[i], debits)
  }

  predicate SomeMatch(p: Pending, debits: seq<Debit>) { exists d | d in debits :: Matches(p, d) }

  lemma {:induction false} LeftOverThen(
    a: map<nat, Pending>, b: map<nat, Pending>, c: map<nat, Pending>, debits: seq<Debit>, more: seq<Debit>)
    requires LeftOver(a, b, debits) && LeftOver(b, c, more)
    ensures LeftOver(a, c, debits + more)
  {
    forall i | i in a && i !in c ensures SomeMatch(a[i], debits + more) {
      if i in b {
        var d :| d in more && Matches(b[i], d);
        assert d in debits + more;
      } else {
        var d :| d in debits && Matches(a[i], d);
        assert d in debits + more;
      }
    }
  }

  /**
   * What an audit leaves: pending closures come from its rows, an accepted closure without a
   * matching debit is among them, the lag is their sum, and the next audit reads them again.
   */
  ghost predicate Audited(rows: seq<Closure>, debits: seq<Debit>, pending: map<nat, Pending>, lag: int, next: nat) {
    && (forall i | i in pending :: exists c | c in rows :: Accepted(c) && c.id == i && pending[i] == PendingOf(c))
    && (forall c | c in rows && Accepted(c) && !SomeMatch(PendingOf(c), debits) ::
          c.id in pending && pending[c.id] == PendingOf(c))
    && lag == Total(pending, PendingAmount)
    && ClosuresCovered(rows, pending.Keys, next)
  }

  lemma {:induction false} AuditedInTheEnd(
    rows: seq<Closure>, debits: seq<Debit>, accepted: map<nat, Pending>, pending: map<nat, Pending>, lag: int,
    start: nat, reached: nat, next: nat)
    requires UniqueIds(rows) && accepted == ClosureMap(rows) && LeftOver(accepted, pending, debits)
    requires reached == Advanced(start, rows) && lag == Total(pending, PendingAmount)
    requires next <= reached && (forall i | i in pending :: next <= i) && (next == reached || next in pending)
    ensures Audited(rows, debits, pending, lag, next)
  {
    ClosureMapMeaning(rows);
    AdvancedPastAll(start, rows);
    CheckpointCovers(rows, pending.Keys, reached, next);
  }

  /**
   * A closure matched in one audit, of which the next audit sees no debit any more, is in that
   * audit's lag exactly when an older closure was still pending after the first.
   */
  lemma {:induction false} MatchedComesBackExactly(
    rows: seq<Closure>, debits: seq<Debit>, pending: map<nat, Pending>, lag: int, next: nat,
    rows': seq<Closure>, debits': seq<Debit>, pending': map<nat, Pending>, lag': int, next': nat, c: Closure)
    requires Audited(rows, debits, pending, lag, next) && Audited(rows', debits', pending', lag', next')
    requires (forall d | d in rows && d.id >= next :: d in rows') && forall d | d in rows' :: d.id >= next
    requires c in rows && Accepted(c) && c.id !in pending && !SomeMatch(PendingOf(c), debits')
    ensures c.id in pending' <==> exists i | i in pending :: i < c.id
    ensures c.id in pending' ==> lag' >= PendingOf(c).amount
  {
    if c.id in pending' {
      TotalRemove(pending', c.id, PendingAmount);
      TotalNonNegative(pending' - {c.id}, PendingAmount);
      var d :| d in rows' && Accepted(d) && d.id == c.id && pending'[c.id] == PendingOf(d);
      assert c.id >= next;
      assert c in rows';
    }
  }
}
