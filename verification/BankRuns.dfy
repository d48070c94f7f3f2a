/** Any interleaving of requests to the bank, and any sequence of history pages. */
module BankRuns {
  import opened Text
  import opened FakeBank
  import Codec = TransferCodec
  import Amounts

  // ----- requests -----

  /** A delivery of an order (first or repeated), an order without uid, or a transfer to the exchange. */
  datatype Op =
    | Deliver(order: Order)
    | Anonymous(order: Order, random: Uid)
    | Admin(debitAccount: Text, creditAccount: Text, amount: nat, reserve: Text)

  function Step(b: Ledger, op: Op): Ledger {
    match op
    case Deliver(o) => Transfer(b, o)
    case Anonymous(o, random) => Append(b, o.(uid := random))
    case Admin(d, c, a, r) => AdminTransfer(b, d, c, a, r)
  }

  const EMPTY := Ledger([], 0)

  function RunOps(ops: seq<Op>): Ledger {
    if ops == [] then EMPTY else Step(RunOps(ops[..|ops| - 1]), ops[|ops| - 1])
  }

  /** The reply to the i-th operation, a delivery. */
  function ReplyAt(ops: seq<Op>, i: nat): Reply
    requires i < |ops| && ops[i].Deliver?
  {
    ReplyTo(RunOps(ops[..i]), ops[i].order)
  }

  /** Row ids strictly increase along the list, up to the counter. */
  predicate Ascending(txs: seq<Transaction>) { forall i, j | 0 <= i < j < |txs| :: txs[i].row < txs[j].row }

  predicate Numbered(b: Ledger) {
    Ascending(b.txs) && forall i | 0 <= i < |b.txs| :: 0 < b.txs[i].row <= b.counter
  }

  lemma {:induction false} RowsIncrease(ops: seq<Op>)
    ensures Numbered(RunOps(ops))
  {
    if ops != [] {
      RowsIncrease(ops[..|ops| - 1]);
    }
  }

  /** The list only ever grows at its end. */
  lemma {:induction false} OnlyAppends(ops: seq<Op>, n: nat)
    requires n <= |ops|
    ensures RunOps(ops[..n]).txs <= RunOps(ops).txs
  {
    if n == |ops| {
      assert ops[..n] == ops;
    } else {
      var m := |ops| - 1;
      assert ops[..m][..n] == ops[..n];
      OnlyAppends(ops[..m], n);
    }
  }

  // ----- whose uid it is -----

  /** The operation puts a transaction with this uid on the list, unless one is there already. */
  predicate Carries(op: Op, uid: Uid) {
    match op
    case Deliver(o) => o.uid == uid
    case Anonymous(_, random) => random == uid
    case Admin(_, _, _, _) => uid == ZERO_UID
  }

  /** The first operation that carries the uid. */
  predicate FirstCarrier(ops: seq<Op>, uid: Uid, j: nat) {
    j < |ops| && Carries(ops[j], uid) && forall i | 0 <= i < j :: !Carries(ops[i], uid)
  }

  predicate Absent(txs: seq<Transaction>, uid: Uid) { forall j | 0 <= j < |txs| :: UidOf(txs[j]) != uid }

  /** Transaction k is the first with the uid. */
  predicate FirstWith(txs: seq<Transaction>, uid: Uid, k: nat) {
    k < |txs| && UidOf(txs[k]) == uid && Absent(txs[..k], uid)
  }

  lemma {:induction false} FindsFirst(txs: seq<Transaction>, uid: Uid, k: nat)
    requires FirstWith(txs, uid, k)
    ensures Find(txs, uid, 0) == k
  {
    assert forall i | 0 <= i < k :: txs[..k][i] == txs[i];
  }

  lemma {:induction false} FindsNone(txs: seq<Transaction>, uid: Uid)
    requires Absent(txs, uid)
    ensures Find(txs, uid, 0) == |txs|
  {
  }

  lemma {:induction false} AbsentBefore(ops: seq<Op>, uid: Uid)
    requires forall i | 0 <= i < |ops| :: !Carries(ops[i], uid)
    ensures Absent(RunOps(ops).txs, uid)
  {
    if ops != [] {
      AbsentBefore(ops[..|ops| - 1], uid);
    }
  }

  /** From the first carrier on, its transaction is the first with the uid. */
  lemma {:induction false} FirstStays(ops: seq<Op>, uid: Uid, j: nat, i: nat)
    requires FirstCarrier(ops, uid, j) && j < i <= |ops|
    ensures Absent(RunOps(ops[..j]).txs, uid)
    ensures var k := |RunOps(ops[..j]).txs|;
      && FirstWith(RunOps(ops[..i]).txs, uid, k) && k < |RunOps(ops[..j + 1]).txs|
      && RunOps(ops[..i]).txs[k] == RunOps(ops[..j + 1]).txs[k]
      && (ops[j].Deliver? ==> RunOps(ops[..j + 1]) == Append(RunOps(ops[..j]), ops[j].order))
  {
    var b, c, d := RunOps(ops[..j]), RunOps(ops[..j + 1]), RunOps(ops[..i]);
    AbsentBefore(ops[..j], uid);
    FindsNone(b.txs, uid);
    assert ops[..j + 1][..j] == ops[..j];
    assert c == Step(b, ops[j]);
    assert ops[..i][..j + 1] == ops[..j + 1];
    OnlyAppends(ops[..i], j + 1);
    assert d.txs[..|b.txs|] == b.txs;
  }

  /** The i-th operation changes the ledger. */
  predicate Moves(ops: seq<Op>, i: nat)
    requires i < |ops|
  {
    RunOps(ops[..i + 1]) != RunOps(ops[..i])
  }

  /** A delivery of `o` moves money exactly if it is the first operation to carry the uid;
      the reply follows from what was first. */
  lemma {:induction false} DeliveryOf(ops: seq<Op>, o: Order, j: nat, i: nat)
    requires FirstCarrier(ops, o.uid, j) && i < |ops| && ops[i] == Deliver(o)
    ensures |RunOps(ops[..j]).txs| < |RunOps(ops).txs| && (Moves(ops, i) <==> i == j)
    ensures var first := RunOps(ops).txs[|RunOps(ops[..j]).txs|];
      ReplyAt(ops, i) == if ops[j] == Deliver(o) || Repeats(o, first) then Ok(first.row) else Conflict
  {
    assert i >= j;
    WholeList(ops, o.uid, j);
    if i == j {
      FirstDelivery(ops, o, j);
    } else {
      LaterDelivery(ops, o, j, i);
    }
  }

  lemma {:induction false} WholeList(ops: seq<Op>, uid: Uid, j: nat)
    requires FirstCarrier(ops, uid, j)
    ensures var k := |RunOps(ops[..j]).txs|;
      && k < |RunOps(ops).txs| && k < |RunOps(ops[..j + 1]).txs| && RunOps(ops).txs[k] == RunOps(ops[..j + 1]).txs[k]
  {
    assert ops[..|ops|] == ops;
    FirstStays(ops, uid, j, |ops|);
  }

  lemma {:induction false} FirstDelivery(ops: seq<Op>, o: Order, j: nat)
    requires FirstCarrier(ops, o.uid, j) && ops[j] == Deliver(o)
    ensures var b, c := RunOps(ops[..j]), RunOps(ops[..j + 1]);
      c == Append(b, o) && Moves(ops, j) && ReplyAt(ops, j) == Ok(c.txs[|b.txs|].row)
  {
    FirstStays(ops, o.uid, j, j + 1);
    FindsNone(RunOps(ops[..j]).txs, o.uid);
  }

  lemma {:induction false} LaterDelivery(ops: seq<Op>, o: Order, j: nat, i: nat)
    requires FirstCarrier(ops, o.uid, j) && j < i < |ops| && ops[i] == Deliver(o)
    ensures !Moves(ops, i) && |RunOps(ops[..j]).txs| < |RunOps(ops[..j + 1]).txs|
    ensures var first := RunOps(ops[..j + 1]).txs[|RunOps(ops[..j]).txs|];
      && (ops[j] == Deliver(o) ==> first.Debit? && first.order == o)
      && ReplyAt(ops, i) == if Repeats(o, first) then Ok(first.row) else Conflict
  {
    FirstStays(ops, o.uid, j, i);
    FindsFirst(RunOps(ops[..i]).txs, o.uid, |RunOps(ops[..j]).txs|);
    SameDetailsExactly(o, RunOps(ops[..i]).txs[|RunOps(ops[..j]).txs|]);
    assert ops[..i + 1][..i] == ops[..i];
  }

  lemma {:induction false} CarrierExists(ops: seq<Op>, uid: Uid, i: nat) returns (j: nat)
    requires i < |ops| && Carries(ops[i], uid)
    ensures FirstCarrier(ops, uid, j) && j <= i
    decreases i
  {
    if m: nat :| m < i && Carries(ops[m], uid) {
      j := CarrierExists(ops, uid, m);
    } else {
      j := i;
    }
  }

  /**
   * Exactly once, exactly when: for any operations and any uid, the deliveries of an order move money
   * exactly once, all replies naming the row of that debit, if and only if the first operation to
   * carry the uid is one of them.  Otherwise they never move any, and are refused unless the
   * transaction that came first agrees in the compared details.
   */
  lemma {:induction false} DebitedOnceExactly(ops: seq<Op>, o: Order) returns (j: nat)
    requires Deliver(o) in ops
    ensures FirstCarrier(ops, o.uid, j) && |RunOps(ops[..j]).txs| < |RunOps(ops).txs|
    ensures var first := RunOps(ops).txs[|RunOps(ops[..j]).txs|];
      && (ops[j] == Deliver(o) ==> first.Debit? && first.order == o)
      && forall i | 0 <= i < |ops| && ops[i] == Deliver(o) ::
           && (Moves(ops, i) <==> i == j)
           && ReplyAt(ops, i) == if ops[j] == Deliver(o) || Repeats(o, first) then Ok(first.row) else Conflict
    ensures ops[j] == Deliver(o) <==> exists i | 0 <= i < |ops| :: ops[i] == Deliver(o) && Moves(ops, i)
  {
    var d :| 0 <= d < |ops| && ops[d] == Deliver(o);
    j := CarrierExists(ops, o.uid, d);
    assert ops[..|ops|] == ops;
    FirstStays(ops, o.uid, j, |ops|);
    forall i | 0 <= i < |ops| && ops[i] == Deliver(o)
      ensures Moves(ops, i) <==> i == j
      ensures var first := RunOps(ops).txs[|RunOps(ops[..j]).txs|];
        ReplyAt(ops, i) == if ops[j] == Deliver(o) || Repeats(o, first) then Ok(first.row) else Conflict
    {
      DeliveryOf(ops, o, j, i);
    }
  }

  /** The order is the only one under its uid, and nobody draws its uid at random. */
  predicate OwnUid(ops: seq<Op>, o: Order) {
    forall op | op in ops && Carries(op, o.uid) :: op == Deliver(o)
  }

  /** Transaction k carries out the order, and no other has its uid. */
  predicate Once(txs: seq<Transaction>, o: Order, k: nat) {
    && k < |txs| && txs[k].Debit? && txs[k].order == o
    && forall j | 0 <= j < |txs| && j != k :: UidOf(txs[j]) != o.uid
  }

  lemma {:induction false} StepKeepsOnce(b: Ledger, op: Op, o: Order, k: nat)
    requires Once(b.txs, o, k) && (Carries(op, o.uid) ==> op == Deliver(o))
    ensures Once(Step(b, op).txs, o, k)
  {
    assert Find(b.txs, o.uid, 0) == k;
  }

  lemma {:induction false} OnceFrom(ops: seq<Op>, o: Order, j: nat, k: nat)
    requires OwnUid(ops, o) && FirstCarrier(ops, o.uid, j) && k == |RunOps(ops[..j]).txs|
    ensures Once(RunOps(ops).txs, o, k)
    decreases |ops|
  {
    var n := |ops| - 1;
    if n == j {
      assert ops[..n + 1] == ops;
      FirstStays(ops, o.uid, j, |ops|);
      assert ops[j] in ops;
    } else {
      assert ops[..n][..j] == ops[..j] && ops[n] in ops;
      assert forall op | op in ops[..n] :: op in ops;
      OnceFrom(ops[..n], o, j, k);
      StepKeepsOnce(RunOps(ops[..n]), ops[n], o, k);
    }
  }

  /**
   * Exactly once: however often an order with a uid of its own is delivered, repeated, or its reply
   * lost, and whatever else the bank does in between, there is one debit for it, and every reply
   * names that row.
   */
  lemma {:induction false} ExactlyOnce(ops: seq<Op>, o: Order) returns (k: nat)
    requires OwnUid(ops, o) && Deliver(o) in ops
    ensures Once(RunOps(ops).txs, o, k)
    ensures forall i | 0 <= i < |ops| && ops[i] == Deliver(o) :: ReplyAt(ops, i) == Ok(RunOps(ops).txs[k].row)
  {
    var j := DebitedOnceExactly(ops, o);
    assert ops[j] in ops;
    k := |RunOps(ops[..j]).txs|;
    OnceFrom(ops, o, j, k);
  }

  /**
   * A uid that some transaction carries already moves no money.  The request is answered with the row
   * of the first such transaction if and only if that is a debit, both accounts are the same byte for
   * byte up to case, and amount and subject are equal; otherwise it is refused.
   */
  lemma {:induction false} ReuseMovesNothing(b: Ledger, other: Order, k: nat)
    requires IsFirst(b.txs, other.uid, k)
    ensures Transfer(b, other) == b
    ensures var t := b.txs[k];
      && (ReplyTo(b, other) == Ok(t.row) <==>
            && t.Debit?
            && EqualUpToCase(other.debitAccount, t.order.debitAccount)
            && EqualUpToCase(other.creditAccount, t.order.creditAccount)
            && other.amount == t.order.amount && other.wtid == t.order.wtid)
      && (ReplyTo(b, other) != Ok(t.row) ==> ReplyTo(b, other) == Conflict)
  {
    AnsweredExactly(b, other);
  }

  /** An order with the uid zero is debited exactly if no transfer to the exchange,
      and nothing else with that uid, comes before it. */
  lemma {:induction false} ZeroUidExactly(ops: seq<Op>, o: Order) returns (j: nat)
    requires o.uid == ZERO_UID && Deliver(o) in ops
    ensures FirstCarrier(ops, ZERO_UID, j) && forall i | 0 <= i < j :: !ops[i].Admin?
    ensures (exists i | 0 <= i < |ops| :: ops[i] == Deliver(o) && Moves(ops, i)) <==> ops[j] == Deliver(o)
    ensures ops[j].Admin? ==> forall i | 0 <= i < |ops| && ops[i] == Deliver(o) :: ReplyAt(ops, i) == Conflict
  {
    j := DebitedOnceExactly(ops, o);
    if ops[j].Admin? {
      FirstStays(ops, o.uid, j, j + 1);
      assert ops[..j + 1][..j] == ops[..j];
      assert ops[..|ops|] == ops;
      FirstStays(ops, o.uid, j, |ops|);
    }
  }

  // ----- prepared buffers -----

  /** The order that the bank receives for a prepared request. */
  function OrderOf(debitAccount: Text, x: Codec.Request): Order {
    Order(Codec.Number(x.uid), debitAccount, x.account, x.value * Amounts.FRAC_BASE + x.fraction, x.wtid, x.url)
  }

  /** Every delivery sends one of the prepared buffers. */
  ghost predicate DeliversPrepared(ops: seq<Op>, debitAccount: Text, prepared: set<Codec.Request>) {
    forall op | op in ops && op.Deliver? ::
      exists x: Codec.Request | x in prepared :: Sends(op, debitAccount, x)
  }

  /** The operation is the delivery of what the buffer of this request decodes to. */
  predicate Sends(op: Op, debitAccount: Text, x: Codec.Request) {
    && Codec.Encode(x).Buffer?
    && var decoded := Codec.Decode(Codec.Encode(x).bytes);
    && decoded.Decoded? && op == Deliver(OrderOf(debitAccount, decoded.request))
  }

  /** Requests prepared with distinct random uids, none of them zero. */
  ghost predicate Prepared(prepared: set<Codec.Request>) {
    && (forall x | x in prepared :: Codec.Proper(x) && Codec.Number(x.uid) != ZERO_UID)
    && forall x, y | x in prepared && y in prepared && x.uid == y.uid :: x == y
  }

  lemma {:induction false} SameNumberSameUid(s: seq<byte>, t: seq<byte>)
    requires |s| == |t| && Codec.Number(s) == Codec.Number(t)
    ensures s == t
  {
    Codec.BigEndianOfNumber(s);
    Codec.BigEndianOfNumber(t);
  }

  /**
   * From prepared buffer to bank: each prepared request that is delivered at all is debited
   * exactly once, with its own amount, subject and accounts, and all its replies agree.
   */
  lemma {:induction false} PreparedExactlyOnce(
    ops: seq<Op>, debitAccount: Text, prepared: set<Codec.Request>, x: Codec.Request) returns (k: nat)
    requires Prepared(prepared) && DeliversPrepared(ops, debitAccount, prepared) && x in prepared
    requires forall op | op in ops && op.Anonymous? :: op.random != Codec.Number(x.uid)
    requires exists op | op in ops :: Sends(op, debitAccount, x)
    ensures var o := OrderOf(debitAccount, x);
      && Once(RunOps(ops).txs, o, k)
      && forall i | 0 <= i < |ops| && Sends(ops[i], debitAccount, x) :: ReplyAt(ops, i) == Ok(RunOps(ops).txs[k].row)
  {
    var o := OrderOf(debitAccount, x);
    forall op | op in ops && op.Deliver? && op.order.uid == o.uid ensures op == Deliver(o) {
      var y: Codec.Request :| y in prepared && Sends(op, debitAccount, y);
      Codec.DecodeEncode(y);
      SameNumberSameUid(x.uid, y.uid);
    }
    assert Codec.Encode(x).Buffer? ==> Codec.Decode(Codec.Encode(x).bytes) == Codec.Decoded(x) by {
      if Codec.Encode(x).Buffer? {
        Codec.DecodeEncode(x);
      }
    }
    k := ExactlyOnce(ops, o);
  }

  // ----- pages -----

  /** Between two pages transactions may be added; then a page of `count` rows is asked for. */
  datatype Visit = Visit(added: seq<Transaction>, count: nat)

  function Grown(txs: seq<Transaction>, visits: seq<Visit>): seq<Transaction>
    decreases |visits|
  {
    if visits == [] then txs else Grown(txs + visits[0].added, visits[1..])
  }

  function NextStart(start: Start, page: seq<Transaction>): Start {
    if page == [] then start else After(page[|page| - 1].row)
  }

  function Delta(count: nat, forward: bool): int { if forward then count else 0 - count }

  datatype Listing = Failed | Listing(txs: seq<Transaction>, complete: bool)

  /** Ask for page after page, each starting after the last row returned; complete if the last page was short. */
  function Collect(txs: seq<Transaction>, visits: seq<Visit>, mine: Selection, start: Start, forward: bool): Listing
    decreases |visits|
  {
    if visits == [] then Listing([], false)
    else
      var now := txs + visits[0].added;
      var page := History(now, mine, start, Delta(visits[0].count, forward));
      if page.Refused? then Failed
      else
        var rest := Collect(now, visits[1..], mine, NextStart(start, page.txs), forward);
        PageThen(page.txs, visits[0].count, |visits| == 1, rest)
  }

  function PageThen(page: seq<Transaction>, count: nat, last: bool, rest: Listing): Listing {
    if rest.Failed? then Failed else Listing(page + rest.txs, if last then |page| < count else rest.complete)
  }

  lemma {:induction false} SelectAppend(s: seq<Transaction>, t: seq<Transaction>, mine: Selection)
    ensures Select(s + t, mine) == Select(s, mine) + Select(t, mine)
  {
    if s == [] {
      assert s + t == t;
    } else {
      assert (s + t)[1..] == s[1..] + t;
      SelectAppend(s[1..], t, mine);
    }
  }

  /** A page is the selection from a stretch that ends with the page's last row. */
  predicate PageEndsAt(s: seq<Transaction>, mine: Selection, n: nat, k: nat) {
    var page := FirstOf(Select(s, mine), n);
    && k <= |s| && Select(s[..k], mine) == page
    && (if page == [] then k == 0 else k > 0 && s[k - 1] == page[|page| - 1])
    && (|page| < n ==> Select(s[k..], mine) == [])
  }

  lemma {:induction false} PageEnds(s: seq<Transaction>, mine: Selection, n: nat) returns (k: nat)
    requires n > 0
    ensures PageEndsAt(s, mine, n, k)
  {
    k := 0;
    if s != [] {
      if !mine(s[0]) {
        var j := PageEnds(s[1..], mine, n);
        k := if j > 0 then j + 1 else 0;
        PassedOver(s, mine, n, j);
      } else if n == 1 {
        k := 1;
        CutOneLater(s, 0, mine);
      } else {
        var j := PageEnds(s[1..], mine, n - 1);
        k := j + 1;
        Taken(s, mine, n, j);
      }
    }
  }

  lemma {:induction false} PassedOver(s: seq<Transaction>, mine: Selection, n: nat, j: nat)
    requires s != [] && n > 0 && !mine(s[0]) && PageEndsAt(s[1..], mine, n, j)
    ensures PageEndsAt(s, mine, n, if j > 0 then j + 1 else 0)
  {
    if j > 0 {
      CutOneLater(s, j, mine);
    }
  }

  lemma {:induction false} Taken(s: seq<Transaction>, mine: Selection, n: nat, j: nat)
    requires s != [] && n > 1 && mine(s[0]) && PageEndsAt(s[1..], mine, n - 1, j)
    ensures PageEndsAt(s, mine, n, j + 1)
  {
    CutOneLater(s, j, mine);
    FirstOfMore(s[0], Select(s[1..], mine), n);
  }

  lemma {:induction false} FirstOfMore(t: Transaction, s: seq<Transaction>, n: nat)
    requires n > 0
    ensures FirstOf([t] + s, n) == [t] + FirstOf(s, n - 1)
  {
  }

  lemma {:induction false} CutOneLater(s: seq<Transaction>, j: nat, mine: Selection)
    requires j < |s|
    ensures Select(s[..j + 1], mine) == (if mine(s[0]) then [s[0]] else []) + Select(s[1..][..j], mine)
    ensures s[j + 1..] == s[1..][j..]
  {
    assert s[..j + 1][1..] == s[1..][..j];
  }

  predicate Asks(visits: seq<Visit>) { forall v | v in visits :: v.count > 0 }

  lemma {:induction false} GrownExtends(txs: seq<Transaction>, visits: seq<Visit>)
    ensures txs <= Grown(txs, visits)
    decreases |visits|
  {
    if visits != [] {
      GrownExtends(txs + visits[0].added, visits[1..]);
    }
  }

  lemma {:induction false} RowIndex(txs: seq<Transaction>, k: nat)
    requires Ascending(txs) && k < |txs|
    ensures IndexOf(txs, txs[k].row, 0) == k
  {
  }

  /** Going from c to d along a path lists exactly these transactions; if complete, none are left beyond d. */
  predicate Covers(path: seq<Transaction>, mine: Selection, c: nat, d: nat, listed: seq<Transaction>, complete: bool) {
    && c <= d <= |path|
    && Select(path[..d], mine) == Select(path[..c], mine) + listed
    && (complete ==> Select(path[d..], mine) == [])
  }

  /** The listing stopped right after its last transaction. */
  predicate StopsAt(path: seq<Transaction>, c: nat, d: nat, listed: seq<Transaction>) {
    if listed == [] then d == c else 0 < d <= |path| && path[d - 1] == listed[|listed| - 1]
  }

  lemma {:induction false} PageCovers(path: seq<Transaction>, mine: Selection, c: nat, n: nat) returns (d: nat)
    requires n > 0 && c <= |path|
    ensures var page := FirstOf(Select(path[c..], mine), n);
      Covers(path, mine, c, d, page, |page| < n) && StopsAt(path, c, d, page)
  {
    var k := PageEnds(path[c..], mine, n);
    d := c + k;
    assert PageEndsAt(path[c..], mine, n, k);
    assert path[..d] == path[..c] + path[c..][..k];
    SelectAppend(path[..c], path[c..][..k], mine);
    assert path[c..][k..] == path[d..];
  }

  lemma {:induction false} CoversThen(
    path: seq<Transaction>, longer: seq<Transaction>, mine: Selection, c: nat, e: nat, d: nat,
    page: seq<Transaction>, short: bool, rest: seq<Transaction>, complete: bool)
    requires path <= longer && Covers(path, mine, c, e, page, short) && Covers(longer, mine, e, d, rest, complete)
    ensures Covers(longer, mine, c, d, page + rest, complete)
  {
    assert longer[..e] == path[..e] && longer[..c] == path[..c];
  }

  lemma {:induction false} JoinAt(s: seq<Transaction>, d: nat, mine: Selection)
    requires d <= |s|
    ensures Select(s, mine) == Select(s[..d], mine) + Select(s[d..], mine)
  {
    assert s == s[..d] + s[d..];
    SelectAppend(s[..d], s[d..], mine);
  }

  /** One page and then the rest of the visits. */
  lemma {:induction false} CollectUnfold(
    txs: seq<Transaction>, visits: seq<Visit>, mine: Selection, start: Start, forward: bool, page: seq<Transaction>)
    requires visits != []
    requires History(txs + visits[0].added, mine, start, Delta(visits[0].count, forward)) == Page(page)
    ensures var rest := Collect(txs + visits[0].added, visits[1..], mine, NextStart(start, page), forward);
      Collect(txs, visits, mine, start, forward) == PageThen(page, visits[0].count, |visits| == 1, rest)
    ensures |visits| == 1 ==>
      Collect(txs + visits[0].added, visits[1..], mine, NextStart(start, page), forward) == Listing([], false)
  {
  }

  // ----- forward -----

  /** The first c transactions have been dealt with. */
  predicate Placed(txs: seq<Transaction>, start: Start, c: nat) {
    if start.FromEnd? then c == 0 else 0 < c <= |txs| && txs[c - 1].row == start.row
  }

  lemma {:induction false} ForwardPage(txs: seq<Transaction>, mine: Selection, start: Start, n: nat, c: nat)
    returns (d: nat, page: seq<Transaction>)
    requires n > 0 && Ascending(txs) && Placed(txs, start, c)
    ensures History(txs, mine, start, n) == Page(page)
    ensures Covers(txs, mine, c, d, page, |page| < n) && Placed(txs, NextStart(start, page), d)
  {
    if start.After? {
      RowIndex(txs, c - 1);
    } else {
      assert txs[0..] == txs;
    }
    assert Ahead(txs, start, n) == txs[c..];
    page := FirstOf(Select(txs[c..], mine), n);
    d := PageCovers(txs, mine, c, n);
  }

  lemma {:induction false} ForwardPages(
    txs: seq<Transaction>, visits: seq<Visit>, mine: Selection, start: Start, c: nat)
    returns (d: nat)
    requires Asks(visits) && Ascending(Grown(txs, visits)) && Placed(txs, start, c)
    ensures var final, all := Grown(txs, visits), Collect(txs, visits, mine, start, true);
      all.Listing? && Covers(final, mine, c, d, all.txs, all.complete)
    decreases |visits|
  {
    GrownExtends(txs, visits);
    d := c;
    if visits != [] {
      var now, n := txs + visits[0].added, visits[0].count;
      GrownExtends(now, visits[1..]);
      assert visits[0] in visits && forall v | v in visits[1..] :: v in visits;
      var e, page := ForwardPage(now, mine, start, n, c);
      CollectUnfold(txs, visits, mine, start, true, page);
      var rest := Collect(now, visits[1..], mine, NextStart(start, page), true);
      d := ForwardPages(now, visits[1..], mine, NextStart(start, page), e);
      CoversThen(now, Grown(txs, visits), mine, c, e, d, page, |page| < n, rest.txs, rest.complete);
      if |visits| == 1 {
        assert Grown(txs, visits) == now && page + rest.txs == page;
        d := e;
      }
    }
  }

  /**
   * Paging forward, with transactions added between the pages, lists an account's transactions
   * in row order without gap or duplicate, and lists all of them once a page comes back short.
   */
  lemma {:induction false} ForwardIsComplete(
    txs: seq<Transaction>, visits: seq<Visit>, mine: Selection) returns (d: nat)
    requires Asks(visits) && Ascending(Grown(txs, visits))
    ensures var final, all := Grown(txs, visits), Collect(txs, visits, mine, FromEnd, true);
      && all.Listing? && d <= |final|
      && all.txs == Select(final[..d], mine)
      && (all.complete ==> all.txs == Select(final, mine))
  {
    d := ForwardPages(txs, visits, mine, FromEnd, 0);
    JoinAt(Grown(txs, visits), d, mine);
  }

  /** A complete listing of an account's debits, or credits, has exactly those transactions. */
  lemma {:induction false} AllListed(txs: seq<Transaction>, visits: seq<Visit>, account: Text)
    requires Asks(visits) && Ascending(Grown(txs, visits))
    ensures var final, debits := Grown(txs, visits), Collect(txs, visits, DebitsOf(account), FromEnd, true);
      debits.Listing? && (debits.complete ==>
        forall t :: t in debits.txs <==>
          t in final && t.Debit? && EqualUpToCase(t.order.debitAccount, account))
    ensures var final, credits := Grown(txs, visits), Collect(txs, visits, CreditsOf(account), FromEnd, true);
      credits.Listing? && (credits.complete ==>
        forall t :: t in credits.txs <==>
          t in final && t.Credit? && EqualUpToCase(t.creditAccount, account))
  {
    var final := Grown(txs, visits);
    var d := ForwardIsComplete(txs, visits, DebitsOf(account));
    var c := ForwardIsComplete(txs, visits, CreditsOf(account));
    SelectMeaning(final, DebitsOf(account));
    SelectMeaning(final, CreditsOf(account));
    MineMeans(account);
  }

  lemma {:induction false} MineMeans(account: Text)
    ensures forall t :: DebitsOf(account)(t) <==> t.Debit? && EqualUpToCase(t.order.debitAccount, account)
    ensures forall t :: CreditsOf(account)(t) <==> t.Credit? && EqualUpToCase(t.creditAccount, account)
  {
    forall t: Transaction
      ensures DebitsOf(account)(t) <==> t.Debit? && EqualUpToCase(t.order.debitAccount, account)
      ensures CreditsOf(account)(t) <==> t.Credit? && EqualUpToCase(t.creditAccount, account)
    {
      if t.Debit? {
        SameTextExactly(t.order.debitAccount, account);
      } else {
        SameTextExactly(t.creditAccount, account);
      }
    }
  }

  // ----- backward -----

  /** The last c transactions of `base` have been dealt with, `base` being the list when the first row was returned. */
  predicate PlacedBack(txs: seq<Transaction>, base: seq<Transaction>, start: Start, c: nat) {
    && base <= txs
    && if start.FromEnd? then c == 0 && base == txs else 0 < c <= |base| && base[|base| - c].row == start.row
  }

  lemma {:induction false} BackwardPage(
    txs: seq<Transaction>, base: seq<Transaction>, mine: Selection, start: Start, n: nat, c: nat)
    returns (d: nat, page: seq<Transaction>)
    requires n > 0 && Ascending(txs) && PlacedBack(txs, base, start, c)
    ensures History(txs, mine, start, Delta(n, false)) == Page(page)
    ensures Covers(Reverse(base), mine, c, d, page, |page| < n) && PlacedBack(txs, base, NextStart(start, page), d)
  {
    var path := Reverse(base);
    AheadBack(txs, base, start, n, c);
    page := FirstOf(Select(path[c..], mine), n);
    d := PageCovers(path, mine, c, n);
    PlacedAfter(txs, base, start, c, d, page);
  }

  lemma {:induction false} PlacedAfter(
    txs: seq<Transaction>, base: seq<Transaction>, start: Start, c: nat, d: nat, page: seq<Transaction>)
    requires PlacedBack(txs, base, start, c) && d <= |base| && StopsAt(Reverse(base), c, d, page)
    ensures PlacedBack(txs, base, NextStart(start, page), d)
  {
    if page != [] {
      assert Reverse(base)[d - 1] == base[|base| - d];
    }
  }

  lemma {:induction false} AheadBack(txs: seq<Transaction>, base: seq<Transaction>, start: Start, n: nat, c: nat)
    requires n > 0 && Ascending(txs) && PlacedBack(txs, base, start, c)
    ensures Ahead(txs, start, Delta(n, false)) == Reverse(base)[c..]
    ensures start.After? ==> IndexOf(txs, start.row, 0) < |txs|
  {
    ReversePrefix(base, c);
    if start.After? {
      var k := |base| - c;
      assert txs[k] == base[k];
      RowIndex(txs, k);
      assert txs[..k] == base[..k];
    } else {
      assert base[..|base|] == base;
    }
  }

  lemma {:induction false} ReversePrefix(s: seq<Transaction>, c: nat)
    requires c <= |s|
    ensures Reverse(s[..|s| - c]) == Reverse(s)[c..]
  {
  }

  lemma {:induction false} BackwardPages(
    txs: seq<Transaction>, visits: seq<Visit>, base: seq<Transaction>, mine: Selection, start: Start, c: nat)
    returns (d: nat)
    requires Asks(visits) && Ascending(Grown(txs, visits)) && start.After? && PlacedBack(txs, base, start, c)
    ensures var all := Collect(txs, visits, mine, start, false);
      all.Listing? && Covers(Reverse(base), mine, c, d, all.txs, all.complete)
    decreases |visits|
  {
    GrownExtends(txs, visits);
    d := c;
    if visits != [] {
      var now, n := txs + visits[0].added, visits[0].count;
      GrownExtends(now, visits[1..]);
      assert visits[0] in visits && forall v | v in visits[1..] :: v in visits;
      var e, page := BackwardPage(now, base, mine, start, n, c);
      CollectUnfold(txs, visits, mine, start, false, page);
      var rest := Collect(now, visits[1..], mine, NextStart(start, page), false);
      d := BackwardPages(now, visits[1..], base, mine, NextStart(start, page), e);
      CoversThen(Reverse(base), Reverse(base), mine, c, e, d, page, |page| < n, rest.txs, rest.complete);
      if |visits| == 1 {
        assert page + rest.txs == page;
        d := e;
      }
    }
  }

  /** A listing is the selection from the last d transactions of a list met on the way, of all of it if complete. */
  predicate ListsBack(
    txs: seq<Transaction>, visits: seq<Visit>, mine: Selection, base: seq<Transaction>, d: nat)
  {
    var all := Collect(txs, visits, mine, FromEnd, false);
    && txs <= base <= Grown(txs, visits) && all.Listing? && d <= |base|
    && all.txs == Select(Reverse(base)[..d], mine)
    && (all.complete ==> all.txs == Select(Reverse(base), mine))
  }

  /**
   * Paging backward lists, last row first, without gap or duplicate, the account's transactions
   * as of some moment of the listing; what is added later does not disturb it.
   */
  lemma {:induction false} BackwardIsComplete(txs: seq<Transaction>, visits: seq<Visit>, mine: Selection)
    returns (base: seq<Transaction>, d: nat)
    requires Asks(visits) && Ascending(Grown(txs, visits))
    ensures ListsBack(txs, visits, mine, base, d)
    decreases |visits|
  {
    base, d := txs, 0;
    if visits != [] {
      var now, n := txs + visits[0].added, visits[0].count;
      assert visits[0] in visits && forall v | v in visits[1..] :: v in visits;
      if |visits| > 1 && History(now, mine, FromEnd, Delta(n, false)) == Page([]) {
        base, d := BackwardIsComplete(now, visits[1..], mine);
        EmptyPageFirst(txs, visits, mine, base, d);
      } else {
        base := now;
        d := BackwardFrom(txs, visits, mine);
      }
    }
  }

  lemma {:induction false} EmptyPageFirst(
    txs: seq<Transaction>, visits: seq<Visit>, mine: Selection, base: seq<Transaction>, d: nat)
    requires |visits| > 1 && ListsBack(txs + visits[0].added, visits[1..], mine, base, d)
    requires History(txs + visits[0].added, mine, FromEnd, Delta(visits[0].count, false)) == Page([])
    ensures ListsBack(txs, visits, mine, base, d)
  {
    EmptyPageAddsNothing(txs, visits, mine);
    assert txs <= txs + visits[0].added <= base;
  }

  lemma {:induction false} EmptyPageAddsNothing(txs: seq<Transaction>, visits: seq<Visit>, mine: Selection)
    requires |visits| > 1
    requires History(txs + visits[0].added, mine, FromEnd, Delta(visits[0].count, false)) == Page([])
    ensures Collect(txs, visits, mine, FromEnd, false)
      == Collect(txs + visits[0].added, visits[1..], mine, FromEnd, false)
    ensures Grown(txs, visits) == Grown(txs + visits[0].added, visits[1..])
  {
    CollectUnfold(txs, visits, mine, FromEnd, false, []);
    EmptyThen(visits[0].count, Collect(txs + visits[0].added, visits[1..], mine, FromEnd, false));
  }

  lemma {:induction false} EmptyThen(count: nat, rest: Listing)
    ensures PageThen([], count, false, rest) == rest
  {
    assert rest.Listing? ==> [] + rest.txs == rest.txs;
  }

  /** The first page of a listing from the end, and how far it goes; it holds something or is the only one. */
  ghost predicate FirstBack(
    txs: seq<Transaction>, visits: seq<Visit>, mine: Selection, e: nat, page: seq<Transaction>)
    requires visits != []
  {
    var now := txs + visits[0].added;
    && (|visits| == 1 || page != [])
    && History(now, mine, FromEnd, Delta(visits[0].count, false)) == Page(page)
    && Covers(Reverse(now), mine, 0, e, page, |page| < visits[0].count)
    && PlacedBack(now, now, NextStart(FromEnd, page), e)
  }

  lemma {:induction false} FirstBackPage(txs: seq<Transaction>, visits: seq<Visit>, mine: Selection)
    returns (e: nat, page: seq<Transaction>)
    requires visits != [] && visits[0].count > 0 && Ascending(txs + visits[0].added)
    requires |visits| == 1 ||
             History(txs + visits[0].added, mine, FromEnd, Delta(visits[0].count, false)) != Page([])
    ensures FirstBack(txs, visits, mine, e, page)
  {
    var now := txs + visits[0].added;
    e, page := BackwardPage(now, now, mine, FromEnd, visits[0].count, 0);
  }

  /** If the first page holds something, or is the only one, the listing stays within the list it came from. */
  lemma {:induction false} BackwardFrom(txs: seq<Transaction>, visits: seq<Visit>, mine: Selection) returns (d: nat)
    requires visits != [] && Asks(visits) && Ascending(Grown(txs, visits))
    requires |visits| == 1 ||
             History(txs + visits[0].added, mine, FromEnd, Delta(visits[0].count, false)) != Page([])
    ensures ListsBack(txs, visits, mine, txs + visits[0].added, d)
  {
    var now := txs + visits[0].added;
    GrownExtends(now, visits[1..]);
    assert txs <= now <= Grown(txs, visits);
    assert visits[0] in visits && forall v | v in visits[1..] :: v in visits;
    var e, page := FirstBackPage(txs, visits, mine);
    d := BackwardFromPage(txs, visits, mine, e, page);
    CoveredIsListed(txs, visits, mine, now, d);
  }

  lemma {:induction false} BackwardFromPage(
    txs: seq<Transaction>, visits: seq<Visit>, mine: Selection, e: nat, page: seq<Transaction>) returns (d: nat)
    requires visits != [] && Asks(visits[1..]) && FirstBack(txs, visits, mine, e, page)
    requires Ascending(Grown(txs + visits[0].added, visits[1..]))
    ensures var all := Collect(txs, visits, mine, FromEnd, false);
      all.Listing? && Covers(Reverse(txs + visits[0].added), mine, 0, d, all.txs, all.complete)
  {
    var now, n := txs + visits[0].added, visits[0].count;
    CollectUnfold(txs, visits, mine, FromEnd, false, page);
    var rest := Collect(now, visits[1..], mine, NextStart(FromEnd, page), false);
    d := e;
    if |visits| > 1 {
      d := BackwardPages(now, visits[1..], now, mine, NextStart(FromEnd, page), e);
      CoversThen(Reverse(now), Reverse(now), mine, 0, e, d, page, |page| < n, rest.txs, rest.complete);
    } else {
      assert page + rest.txs == page;
    }
  }

  lemma {:induction false} CoveredIsListed(
    txs: seq<Transaction>, visits: seq<Visit>, mine: Selection, now: seq<Transaction>, d: nat)
    requires txs <= now <= Grown(txs, visits)
    requires var all := Collect(txs, visits, mine, FromEnd, false);
      all.Listing? && Covers(Reverse(now), mine, 0, d, all.txs, all.complete)
    ensures ListsBack(txs, visits, mine, now, d)
  {
    JoinAt(Reverse(now), d, mine);
  }
}
