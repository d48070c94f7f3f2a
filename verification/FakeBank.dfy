/** The bank: idempotent transfers, and histories handed out page by page. */
module FakeBank {
  import opened Text

  /** A request uid, read as a number; transfers to the exchange have the uid zero. */
  type Uid = nat

  const ZERO_UID: Uid := 0

  /** An order to transfer money from the exchange. */
  datatype Order = Order(uid: Uid, debitAccount: Text, creditAccount: Text, amount: nat, wtid: Text, url: Text)

  datatype Transaction =
    | Debit(row: nat, order: Order)
    | Credit(row: nat, debitAccount: Text, creditAccount: Text, amount: nat, reserve: Text)

  function UidOf(t: Transaction): Uid { if t.Debit? then t.order.uid else ZERO_UID }

  /** The details compared when a request is repeated; the URL is not among them. */
  predicate SameDetails(o: Order, t: Transaction) {
    && t.Debit?
    && SameText(o.debitAccount, t.order.debitAccount)
    && SameText(o.creditAccount, t.order.creditAccount)
    && o.amount == t.order.amount && o.wtid == t.order.wtid
  }

  /** The transaction is a debit between the same accounts, up to case, of the same amount under the same subject. */
  predicate Repeats(o: Order, t: Transaction) {
    match t
    case Debit(_, p) =>
      && EqualUpToCase(o.debitAccount, p.debitAccount) && EqualUpToCase(o.creditAccount, p.creditAccount)
      && o.amount == p.amount && o.wtid == p.wtid
    case Credit(_, _, _, _, _) => false
  }

  lemma {:induction false} SameDetailsExactly(o: Order, t: Transaction)
    ensures SameDetails(o, t) <==> Repeats(o, t)
  {
    if t.Debit? {
      SameTextExactly(o.debitAccount, t.order.debitAccount);
      SameTextExactly(o.creditAccount, t.order.creditAccount);
    }
  }

  datatype Reply = Ok(row: nat) | Conflict

  datatype Ledger = Ledger(txs: seq<Transaction>, counter: nat)

  /** The first transaction with this uid, or the end of the list. */
  function Find(txs: seq<Transaction>, uid: Uid, i: nat): (k: nat)
    requires i <= |txs|
    ensures i <= k <= |txs| && (k < |txs| ==> UidOf(txs[k]) == uid)
    ensures forall j | i <= j < k :: UidOf(txs[j]) != uid
    decreases |txs| - i
  {
    if i == |txs| || UidOf(txs[i]) == uid then i else Find(txs, uid, i + 1)
  }

  function Append(b: Ledger, o: Order): Ledger {
    Ledger(b.txs + [Debit(b.counter + 1, o)], b.counter + 1)
  }

  /** A request with a uid. */
  function Transfer(b: Ledger, o: Order): Ledger {
    if Find(b.txs, o.uid, 0) < |b.txs| then b else Append(b, o)
  }

  function ReplyTo(b: Ledger, o: Order): Reply {
    var k := Find(b.txs, o.uid, 0);
    if k == |b.txs| then Ok(b.counter + 1)
    else if SameDetails(o, b.txs[k]) then Ok(b.txs[k].row)
    else Conflict
  }

  /** A transaction carries the uid if it is a debit with it; transfers to the exchange carry the uid zero. */
  predicate HasUid(t: Transaction, uid: Uid) {
    match t
    case Debit(_, o) => o.uid == uid
    case Credit(_, _, _, _, _) => uid == 0
  }

  /** Transaction `k` is the first that carries the uid. */
  predicate IsFirst(txs: seq<Transaction>, uid: Uid, k: nat) {
    k < |txs| && HasUid(txs[k], uid) && forall j | 0 <= j < k :: !HasUid(txs[j], uid)
  }

  /**
   * How a request with a uid is answered.  A uid that no transaction carries makes one new debit with
   * the next row.  Otherwise nothing moves: the first transaction with the uid is named if it is the
   * same transfer, and else the request is refused.
   */
  lemma {:induction false} AnsweredExactly(b: Ledger, o: Order)
    ensures (forall t | t in b.txs :: !HasUid(t, o.uid)) ==>
      && Transfer(b, o) == Ledger(b.txs + [Debit(b.counter + 1, o)], b.counter + 1)
      && ReplyTo(b, o) == Ok(b.counter + 1)
    ensures forall k: nat | IsFirst(b.txs, o.uid, k) ::
      && Transfer(b, o) == b
      && ReplyTo(b, o) == if Repeats(o, b.txs[k]) then Ok(b.txs[k].row) else Conflict
  {
    var found := Find(b.txs, o.uid, 0);
    assert forall t :: UidOf(t) == o.uid <==> HasUid(t, o.uid);
    if found < |b.txs| {
      assert b.txs[found] in b.txs;
    }
    forall k: nat | IsFirst(b.txs, o.uid, k)
      ensures Transfer(b, o) == b
      ensures ReplyTo(b, o) == if Repeats(o, b.txs[k]) then Ok(b.txs[k].row) else Conflict
    {
      assert k == found;
      SameDetailsExactly(o, b.txs[k]);
    }
  }

  function AdminTransfer(b: Ledger, debitAccount: Text, creditAccount: Text, amount: nat, reserve: Text): Ledger {
    Ledger(b.txs + [Credit(b.counter + 1, debitAccount, creditAccount, amount, reserve)], b.counter + 1)
  }

  // ----- histories -----

  type Selection = Transaction -> bool

  function DebitsOf(account: Text): Selection
  {
    (t: Transaction) => t.Debit? && SameText(t.order.debitAccount, account)
  }

  function CreditsOf(account: Text): Selection { (t: Transaction) => t.Credit? && SameText(t.creditAccount, account) }

  function Select(txs: seq<Transaction>, mine: Selection): seq<Transaction> {
    if txs == [] then []
    else if mine(txs[0]) then [txs[0]] + Select(txs[1..], mine)
    else Select(txs[1..], mine)
  }

  function FirstOf(s: seq<Transaction>, n: nat): seq<Transaction> { if |s| <= n then s else s[..n] }

  function Reverse(s: seq<Transaction>): (r: seq<Transaction>)
    ensures |r| == |s| && forall i | 0 <= i < |s| :: r[i] == s[|s| - 1 - i]
  {
    seq(|s|, i requires 0 <= i < |s| => s[|s| - 1 - i])
  }

  datatype Start = FromEnd | After(row: nat)

  /** The position of a row, or the end of the list. */
  function IndexOf(txs: seq<Transaction>, row: nat, i: nat): (k: nat)
    requires i <= |txs|
    ensures i <= k <= |txs| && (k < |txs| ==> txs[k].row == row)
    ensures forall j | i <= j < k :: txs[j].row != row
    decreases |txs| - i
  {
    if i == |txs| || txs[i].row == row then i else IndexOf(txs, row, i + 1)
  }

  datatype Page = Refused | Page(txs: seq<Transaction>)

  function Abs(n: int): nat { if n < 0 then -n else n }

  /** What is still ahead of a starting point, in the direction of the request. */
  function Ahead(txs: seq<Transaction>, start: Start, delta: int): seq<Transaction> {
    if start.FromEnd? then (if delta < 0 then Reverse(txs) else txs)
    else
      var k := IndexOf(txs, start.row, 0);
      if k == |txs| then [] else if delta < 0 then Reverse(txs[..k]) else txs[k + 1..]
  }

  /** A delta of zero is refused, and so is an unknown starting row unless there are no transactions at all. */
  function History(txs: seq<Transaction>, mine: Selection, start: Start, delta: int): Page {
    if delta == 0 then Refused
    else if start.After? && txs != [] && IndexOf(txs, start.row, 0) == |txs| then Refused
    else Page(FirstOf(Select(Ahead(txs, start, delta), mine), Abs(delta)))
  }

  /** Picking up to `n` selected transactions, from a position on. */
  function Pick(s: seq<Transaction>, i: nat, mine: Selection, n: nat): seq<Transaction>
    requires i <= |s|
    decreases |s| - i
  {
    if n == 0 || i == |s| then []
    else if mine(s[i]) then [s[i]] + Pick(s, i + 1, mine, n - 1)
    else Pick(s, i + 1, mine, n)
  }

  lemma {:induction false} PickIsFirst(s: seq<Transaction>, i: nat, mine: Selection, n: nat)
    requires i <= |s|
    ensures Pick(s, i, mine, n) == FirstOf(Select(s[i..], mine), n)
    decreases |s| - i
  {
    if n > 0 && i < |s| {
      assert s[i..][1..] == s[i + 1..];
      PickIsFirst(s, i + 1, mine, if mine(s[i]) then n - 1 else n);
    }
  }

  lemma {:induction false} SelectMeaning(s: seq<Transaction>, mine: Selection)
    ensures forall t :: t in Select(s, mine) <==> t in s && mine(t)
  {
    if s != [] {
      SelectMeaning(s[1..], mine);
      assert s == [s[0]] + s[1..];
    }
  }

  /** A page holds selected transactions of the list only. */
  lemma {:induction false} OnlySelected(txs: seq<Transaction>, mine: Selection, start: Start, delta: int)
    ensures var page := History(txs, mine, start, delta);
      page.Page? ==> forall t | t in page.txs :: t in txs && mine(t)
  {
    var ahead := Ahead(txs, start, delta);
    assert forall t | t in ahead :: t in txs;
    SelectMeaning(ahead, mine);
    assert forall t | t in FirstOf(Select(ahead, mine), Abs(delta)) :: t in Select(ahead, mine);
  }

  /** A delta of zero is refused, and so is a starting row that no transaction has, unless there are none. */
  lemma {:induction false} RefusedExactly(txs: seq<Transaction>, mine: Selection, start: Start, delta: int)
    ensures History(txs, mine, start, delta).Refused? <==>
      delta == 0 || (start.After? && txs != [] && forall t | t in txs :: t.row != start.row)
  {
    if start.After? && IndexOf(txs, start.row, 0) < |txs| {
      assert txs[IndexOf(txs, start.row, 0)] in txs;
    }
  }

  /** The part of the list on one side of a cut, in the direction of the request. */
  function Piece(txs: seq<Transaction>, delta: int, cut: nat): seq<Transaction>
    requires cut <= |txs|
  {
    if delta < 0 then Reverse(txs[..cut]) else txs[cut..]
  }

  /** A walk from the cut goes through the piece. */
  lemma {:induction false} PieceAt(txs: seq<Transaction>, delta: int, cut: nat)
    requires cut <= |txs|
    ensures |Piece(txs, delta, cut)| == if delta < 0 then cut else |txs| - cut
    ensures forall i | 0 <= i < |Piece(txs, delta, cut)| ::
      Piece(txs, delta, cut)[i] == txs[if delta < 0 then cut - 1 - i else cut + i]
  {
  }

  /** What lies ahead is a piece of the list cut at one place. */
  lemma {:induction false} AheadIs(txs: seq<Transaction>, start: Start, delta: int, cut: nat)
    requires delta != 0 && (start.After? ==> IndexOf(txs, start.row, 0) < |txs|)
    requires cut == if start.FromEnd? then (if delta < 0 then |txs| else 0)
                    else IndexOf(txs, start.row, 0) + if delta < 0 then 0 else 1
    ensures cut <= |txs| && Ahead(txs, start, delta) == Piece(txs, delta, cut)
  {
    if start.FromEnd? {
      assert txs == if delta < 0 then txs[..cut] else txs[cut..];
    }
  }

  class Bank {
    var txs: seq<Transaction>
    var counter: nat

    constructor ()
      ensures Snapshot() == Ledger([], 0)
    {
      txs, counter := [], 0;
    }

    function Snapshot(): Ledger
      reads this
    {
      Ledger(txs, counter)
    }

    /** A request without uid gets a random one. */
    method MakeTransfer(o: Order, hasUid: bool, random: Uid) returns (reply: Reply)
      modifies this
      ensures hasUid ==> Snapshot() == Transfer(old(Snapshot()), o) && reply == ReplyTo(old(Snapshot()), o)
      ensures hasUid && (forall t | t in old(txs) :: !HasUid(t, o.uid)) ==>
        txs == old(txs) + [Debit(counter, o)] && counter == old(counter) + 1 && reply == Ok(counter)
      ensures hasUid ==> forall k: nat | IsFirst(old(txs), o.uid, k) ::
        && txs == old(txs) && counter == old(counter)
        && reply == if Repeats(o, txs[k]) then Ok(txs[k].row) else Conflict
      ensures !hasUid ==> Snapshot() == Append(old(Snapshot()), o.(uid := random)) && reply == Ok(counter)
    {
      AnsweredExactly(Snapshot(), o);
      if hasUid {
        var k := 0;
        while k < |txs|
          invariant k <= |txs| && txs == old(txs) && counter == old(counter)
          invariant Find(txs, o.uid, 0) == Find(txs, o.uid, k)
        {
          if UidOf(txs[k]) == o.uid {
            if !SameDetails(o, txs[k]) {
              return Conflict;
            }
            return Ok(txs[k].row);
          }
          k := k + 1;
        }
      }
      counter := counter + 1;
      txs := txs + [Debit(counter, if hasUid then o else o.(uid := random))];
      reply := Ok(counter);
    }

    method MakeAdminTransfer(debitAccount: Text, creditAccount: Text, amount: nat, reserve: Text) returns (row: nat)
      modifies this
      ensures Snapshot() == AdminTransfer(old(Snapshot()), debitAccount, creditAccount, amount, reserve)
      ensures row == counter == old(counter) + 1
      ensures txs == old(txs) + [Credit(row, debitAccount, creditAccount, amount, reserve)]
    {
      counter := counter + 1;
      txs := txs + [Credit(counter, debitAccount, creditAccount, amount, reserve)];
      row := counter;
    }

    /** The debits of an account. */
    method HandleDebitHistory(account: Text, start: Start, delta: int) returns (page: Page)
      ensures page == History(txs, DebitsOf(account), start, delta)
      ensures page.Refused? <==>
        delta == 0 || (start.After? && txs != [] && forall t | t in txs :: t.row != start.row)
      ensures page.Page? ==> |page.txs| <= Abs(delta)
      ensures page.Page? ==> forall t | t in page.txs :: t in txs && t.Debit? && SameText(t.order.debitAccount, account)
    {
      OnlySelected(txs, DebitsOf(account), start, delta);
      RefusedExactly(txs, DebitsOf(account), start, delta);
      page := GetHistory(DebitsOf(account), start, delta);
    }

    /** The credits of an account. */
    method HandleCreditHistory(account: Text, start: Start, delta: int) returns (page: Page)
      ensures page == History(txs, CreditsOf(account), start, delta)
      ensures page.Refused? <==>
        delta == 0 || (start.After? && txs != [] && forall t | t in txs :: t.row != start.row)
      ensures page.Page? ==> |page.txs| <= Abs(delta)
      ensures page.Page? ==> forall t | t in page.txs :: t in txs && t.Credit? && SameText(t.creditAccount, account)
    {
      OnlySelected(txs, CreditsOf(account), start, delta);
      RefusedExactly(txs, CreditsOf(account), start, delta);
      page := GetHistory(CreditsOf(account), start, delta);
    }

    /** One page of an account's history; the walk goes from one transaction to its neighbour. */
    method GetHistory(mine: Selection, start: Start, delta: int) returns (page: Page)
      ensures page == History(txs, mine, start, delta)
      ensures page.Page? ==> |page.txs| <= Abs(delta)
    {
      if delta == 0 {
        return Refused;
      }
      var from: int;
      if start.FromEnd? {
        from := if delta < 0 then |txs| - 1 else 0;
      } else {
        var k := FindRow(start.row);
        if k == |txs| {
          return if txs == [] then Page([]) else Refused;
        }
        from := k;
        from := if delta < 0 then from - 1 else from + 1;
      }
      ghost var cut := if delta < 0 then from + 1 else from;
      AheadIs(txs, start, delta, cut);
      var found := Walk(mine, from, delta, cut);
      page := Page(found);
    }

    /** Look for a row from the head of the list on. */
    method FindRow(row: nat) returns (k: nat)
      ensures k == IndexOf(txs, row, 0)
    {
      k := 0;
      while k < |txs| && txs[k].row != row
        invariant k <= |txs| && IndexOf(txs, row, 0) == IndexOf(txs, row, k)
      {
        k := k + 1;
      }
    }

    /** Collect up to `delta` transactions, walking forward or backward from a position. */
    method Walk(mine: Selection, from: int, delta: int, ghost cut: nat) returns (found: seq<Transaction>)
      requires delta != 0 && cut <= |txs| && from == if delta < 0 then cut - 1 else cut
      ensures found == FirstOf(Select(Piece(txs, delta, cut), mine), Abs(delta))
    {
      ghost var ahead := Piece(txs, delta, cut);
      PieceAt(txs, delta, cut);
      var pos, left := from, delta;
      found := [];
      ghost var done := 0;
      while left != 0 && 0 <= pos < |txs|
        invariant done <= |ahead| && pos == if delta < 0 then from - done else from + done
        invariant if delta < 0 then delta <= left <= 0 else 0 <= left <= delta
        invariant Pick(ahead, 0, mine, Abs(delta)) == found + Pick(ahead, done, mine, Abs(left))
        decreases |ahead| - done
      {
        if mine(txs[pos]) {
          found := found + [txs[pos]];
          left := if left > 0 then left - 1 else left + 1;
        }
        pos := if delta < 0 then pos - 1 else pos + 1;
        done := done + 1;
      }
      assert ahead[0..] == ahead;
      PickIsFirst(ahead, 0, mine, Abs(delta));
    }
  }
}
