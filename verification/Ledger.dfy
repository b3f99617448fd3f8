/** The ledger of payment assignments as values: what confirming, reopening and deleting do to it. */
module Ledger {
  import opened Wrappers

  type FeeId = nat
  type TxId = nat
  type Day = int

  /** `inCollection` only blocks payments, see `OpenFee`; direct debits, which set it, are not modelled. */
  datatype Fee = Fee(amount: int, paidDate: Option<Day>, deleted: bool, memberDeleted: bool, inCollection: bool)

  /** `imported` is set for a transaction with live bank statement data. */
  datatype Tx = Tx(amount: int, date: Day, income: bool, imported: bool, isReturn: bool, dismissed: bool, deleted: bool)

  /** A row that links `tx` to `fee`; `prior` is the paid date the fee had before. The row's id is its position. */
  datatype Payment = Payment(fee: FeeId, tx: TxId, amount: int, prior: Option<Day>, deleted: bool)

  datatype Ledger = Ledger(fees: map<FeeId, Fee>, txs: map<TxId, Tx>, payments: seq<Payment>)

  datatype Allocation = Allocation(fee: FeeId, amount: int)

  datatype Error =
    | NoAllocations
    | NotFound
    | AlreadyReconciled
    | NotReconcilable
    | NotAssignable(fees: set<FeeId>)
    | AllocationExceeds

  // ---------- What is assigned to a fee ----------

  /** A live assignment by a live transaction, with the date of the transaction. */
  datatype Link = Link(tx: TxId, amount: int, prior: Option<Day>, date: Day)

  predicate LiveTx(l: Ledger, tx: TxId) {
    tx in l.txs && !l.txs[tx].deleted
  }

  predicate LiveFee(l: Ledger, f: FeeId) {
    f in l.fees && !l.fees[f].deleted
  }

  predicate IsLink(l: Ledger, f: FeeId, i: nat) {
    i < |l.payments| && l.payments[i].fee == f && !l.payments[i].deleted && LiveTx(l, l.payments[i].tx)
  }

  function LinkAt(l: Ledger, f: FeeId, i: nat): Link
    requires IsLink(l, f, i)
  {
    var p := l.payments[i];
    Link(p.tx, p.amount, p.prior, l.txs[p.tx].date)
  }

  /** The links of a fee among the first `n` payments, in the order they were made. */
  function LinksUpTo(l: Ledger, f: FeeId, n: nat): seq<Link>
    requires n <= |l.payments|
  {
    if n == 0 then []
    else if IsLink(l, f, n - 1) then LinksUpTo(l, f, n - 1) + [LinkAt(l, f, n - 1)]
    else LinksUpTo(l, f, n - 1)
  }

  function Links(l: Ledger, f: FeeId): seq<Link> {
    LinksUpTo(l, f, |l.payments|)
  }

  /** The payments since the last return: a return reverses everything paid before. */
  function SinceReturn(links: seq<Link>): int {
    if links == [] || links[|links| - 1].amount < 0 then 0
    else SinceReturn(links[..|links| - 1]) + links[|links| - 1].amount
  }

  function LastPayment(links: seq<Link>): Option<Day> {
    if links == [] then None
    else
      var last, before := links[|links| - 1], LastPayment(links[..|links| - 1]);
      if last.amount <= 0 then before
      else if before.Some? && before.value > last.date then before
      else Some(last.date)
  }

  /** A paid date outweighs the links: it stands for the whole amount. */
  function PaidCents(fee: Fee, links: seq<Link>): int {
    if fee.paidDate.Some? then fee.amount else SinceReturn(links)
  }

  predicate OpenFee(fee: Fee, links: seq<Link>) {
    fee.paidDate.None? && !fee.inCollection && fee.amount - PaidCents(fee, links) > 0
  }

  /** A fee settled from its links; a fee without links is left as it is. */
  function Settled(fee: Fee, links: seq<Link>): Fee {
    if links == [] then fee
    else if links[|links| - 1].amount < 0 || SinceReturn(links) < fee.amount then fee.(paidDate := None)
    else if fee.paidDate.Some? then fee
    else fee.(paidDate := LastPayment(links))
  }

  // ---------- Confirming ----------

  predicate IsEntry(l: Ledger, tx: TxId) {
    LiveTx(l, tx) && l.txs[tx].imported
  }

  /** The transaction has a live assignment to a live fee. */
  predicate HasPayments(l: Ledger, tx: TxId) {
    exists i :: 0 <= i < |l.payments| &&
      l.payments[i].tx == tx && !l.payments[i].deleted && LiveFee(l, l.payments[i].fee)
  }

  /** The entries that suggestions are made for. */
  predicate OpenEntry(l: Ledger, tx: TxId) {
    IsEntry(l, tx) && !HasPayments(l, tx) && !l.txs[tx].dismissed && (l.txs[tx].income || l.txs[tx].isReturn)
  }

  function Total(allocations: seq<Allocation>): int {
    if allocations == [] then 0 else Total(allocations[..|allocations| - 1]) + allocations[|allocations| - 1].amount
  }

  predicate Sound(allocations: seq<Allocation>) {
    && (forall i | 0 <= i < |allocations| :: allocations[i].amount > 0)
    && (forall i, j | 0 <= i < j < |allocations| :: allocations[i].fee != allocations[j].fee)
  }

  /** The position of the first allocation that is not positive or repeats a fee. */
  predicate IsFirstUnsound(allocations: seq<Allocation>, i: nat) {
    i < |allocations| && !Sound(allocations[..i + 1]) && Sound(allocations[..i])
  }

  predicate Assignable(l: Ledger, a: Allocation, isReturn: bool) {
    LiveFee(l, a.fee) && !l.fees[a.fee].memberDeleted &&
    var fee, links := l.fees[a.fee], Links(l, a.fee);
    if isReturn then 0 < PaidCents(fee, links) && a.amount <= PaidCents(fee, links)
    else OpenFee(fee, links) && a.amount <= fee.amount - PaidCents(fee, links)
  }

  function Unassignable(l: Ledger, allocations: seq<Allocation>, isReturn: bool): set<FeeId> {
    set a | a in allocations && !Assignable(l, a, isReturn) :: a.fee
  }

  /** Everything a confirmation checks. */
  predicate Confirmable(l: Ledger, tx: TxId, allocations: seq<Allocation>) {
    && allocations != []
    && IsEntry(l, tx)
    && !HasPayments(l, tx)
    && (l.txs[tx].income || l.txs[tx].isReturn)
    && Sound(allocations)
    && Total(allocations) <= l.txs[tx].amount
    && forall a | a in allocations :: Assignable(l, a, l.txs[tx].isReturn)
  }

  predicate Allocates(allocations: seq<Allocation>, f: FeeId) {
    exists i :: 0 <= i < |allocations| && allocations[i].fee == f
  }

  function NewPayment(l: Ledger, tx: TxId, a: Allocation): Payment
    requires a.fee in l.fees && tx in l.txs
  {
    Payment(a.fee, tx, if l.txs[tx].isReturn then -a.amount else a.amount, l.fees[a.fee].paidDate, false)
  }

  function NewLink(l: Ledger, tx: TxId, a: Allocation): Link
    requires a.fee in l.fees && tx in l.txs
  {
    Link(tx, NewPayment(l, tx, a).amount, l.fees[a.fee].paidDate, l.txs[tx].date)
  }

  function Assigned(l: Ledger, tx: TxId, allocations: seq<Allocation>): Ledger
    requires Confirmable(l, tx, allocations)
  {
    l.(payments := l.payments + seq(|allocations|, i requires 0 <= i < |allocations| =>
                                      assert allocations[i] in allocations; NewPayment(l, tx, allocations[i])),
       txs := l.txs[tx := l.txs[tx].(dismissed := false)])
  }

  function Confirmed(l: Ledger, tx: TxId, allocations: seq<Allocation>): Ledger
    requires Confirmable(l, tx, allocations)
  {
    var l' := Assigned(l, tx, allocations);
    l'.(fees := map f | f in l.fees ::
      if Allocates(allocations, f) then Settled(l.fees[f], Links(l', f)) else l.fees[f])
  }

  // ---------- Undoing ----------

  /** The live assignments of the transaction to the fee. */
  predicate IsRemoved(l: Ledger, tx: TxId, f: FeeId, i: nat) {
    i < |l.payments| && l.payments[i].tx == tx && l.payments[i].fee == f && !l.payments[i].deleted
  }

  function Tombstoned(l: Ledger, tx: TxId): Ledger {
    l.(payments := seq(|l.payments|, i requires 0 <= i < |l.payments| =>
                         if l.payments[i].tx == tx then l.payments[i].(deleted := true) else l.payments[i]))
  }

  function FirstRemoved(l: Ledger, tx: TxId, f: FeeId, n: nat): Option<nat>
    requires n <= |l.payments|
  {
    if n == 0 then None
    else
      var first := FirstRemoved(l, tx, f, n - 1);
      if first.Some? then first else if IsRemoved(l, tx, f, n - 1) then Some(n - 1) else None
  }

  /** How many links the fee has after the payment with id `i`. */
  function LaterLinks(l: Ledger, f: FeeId, i: nat): int
    requires i < |l.payments|
  {
    |Links(l, f)| - |LinksUpTo(l, f, i + 1)|
  }

  /**
   * A fee once the rows of a transaction are tombstoned. A later live row makes the remaining links decide; without
   * one the `prior` of the first tombstoned row is the paid date again.
   */
  function Restored(l: Ledger, tx: TxId, f: FeeId): Fee
    requires f in l.fees
  {
    var fee, first := l.fees[f], FirstRemoved(l, tx, f, |l.payments|);
    if fee.deleted || first.None? || first.value >= |l.payments| then fee
    else if LaterLinks(Tombstoned(l, tx), f, first.value) > 0 then Settled(fee, Links(Tombstoned(l, tx), f))
    else fee.(paidDate := l.payments[first.value].prior)
  }

  /** The ledger without the assignments of the transaction. */
  function Removed(l: Ledger, tx: TxId): Ledger {
    Tombstoned(l, tx).(fees := map f | f in l.fees :: Restored(l, tx, f))
  }

  function Reopened(l: Ledger, tx: TxId): Ledger
    requires tx in l.txs
  {
    Removed(l.(txs := l.txs[tx := l.txs[tx].(dismissed := false)]), tx)
  }

  function WithoutTx(l: Ledger, tx: TxId): Ledger
    requires tx in l.txs
  {
    Removed(l.(txs := l.txs[tx := l.txs[tx].(deleted := true)]), tx)
  }

  function WithoutFee(l: Ledger, f: FeeId): Ledger
    requires f in l.fees
  {
    l.(fees := l.fees[f := l.fees[f].(deleted := true)],
       payments := seq(|l.payments|, i requires 0 <= i < |l.payments| =>
                         if l.payments[i].fee == f then l.payments[i].(deleted := true) else l.payments[i]))
  }

  // ---------- Links under the operations ----------

  lemma {:induction false} FirstRemovedIsFirst(l: Ledger, tx: TxId, f: FeeId, n: nat)
    requires n <= |l.payments|
    ensures var first := FirstRemoved(l, tx, f, n);
      if first.Some? then
        first.value < n && IsRemoved(l, tx, f, first.value) &&
        forall j | 0 <= j < first.value :: !IsRemoved(l, tx, f, j)
      else forall j | 0 <= j < n :: !IsRemoved(l, tx, f, j)
  {
    if n > 0 {
      FirstRemovedIsFirst(l, tx, f, n - 1);
    }
  }

  /** Payments that agree up to `n` give the same links. */
  lemma {:induction false} SameLinks(l: Ledger, l': Ledger, f: FeeId, n: nat)
    requires n <= |l.payments| && n <= |l'.payments|
    requires forall i | 0 <= i < n :: IsLink(l, f, i) == IsLink(l', f, i)
    requires forall i | 0 <= i < n && IsLink(l, f, i) :: LinkAt(l, f, i) == LinkAt(l', f, i)
    ensures LinksUpTo(l, f, n) == LinksUpTo(l', f, n)
  {
    if n > 0 {
      SameLinks(l, l', f, n - 1);
    }
  }

  function Without(links: seq<Link>, tx: TxId): seq<Link> {
    if links == [] then []
    else
      var last, before := links[|links| - 1], Without(links[..|links| - 1], tx);
      if last.tx == tx then before else before + [last]
  }

  predicate Linked(links: seq<Link>, tx: TxId) {
    exists i :: 0 <= i < |links| && links[i].tx == tx
  }

  lemma {:induction false} TombstonedLinks(l: Ledger, tx: TxId, f: FeeId, n: nat)
    requires n <= |l.payments|
    ensures LinksUpTo(Tombstoned(l, tx), f, n) == Without(LinksUpTo(l, f, n), tx)
  {
    if n > 0 {
      TombstonedLinks(l, tx, f, n - 1);
      var before := LinksUpTo(l, f, n - 1);
      if IsLink(l, f, n - 1) {
        assert (before + [LinkAt(l, f, n - 1)])[..|before|] == before;
      }
    }
  }

  lemma {:induction false} WithoutUnlinked(links: seq<Link>, tx: TxId)
    requires !Linked(links, tx)
    ensures Without(links, tx) == links
  {
    if links != [] {
      var before := links[..|links| - 1];
      assert forall i | 0 <= i < |before| :: before[i] == links[i];
      WithoutUnlinked(before, tx);
    }
  }

  /** The links up to a payment are a prefix of all links, and the payment's own link follows them. */
  lemma {:induction false} LinksGrow(l: Ledger, f: FeeId, i: nat, n: nat)
    requires i <= n <= |l.payments|
    ensures LinksUpTo(l, f, i) <= LinksUpTo(l, f, n)
  {
    if i < n {
      LinksGrow(l, f, i, n - 1);
    }
  }

  lemma {:induction false} LinkComesFromPayment(l: Ledger, f: FeeId, n: nat, k: nat) returns (i: nat)
    requires n <= |l.payments| && k < |LinksUpTo(l, f, n)|
    ensures i < n && IsLink(l, f, i) && LinkAt(l, f, i) == LinksUpTo(l, f, n)[k] && |LinksUpTo(l, f, i)| == k
  {
    if IsLink(l, f, n - 1) && k == |LinksUpTo(l, f, n - 1)| {
      i := n - 1;
    } else {
      i := LinkComesFromPayment(l, f, n - 1, k);
    }
  }

  lemma PaymentIsLinked(l: Ledger, f: FeeId, i: nat)
    requires IsLink(l, f, i)
    ensures |LinksUpTo(l, f, i)| < |Links(l, f)| && Links(l, f)[|LinksUpTo(l, f, i)|] == LinkAt(l, f, i)
    ensures Linked(Links(l, f), l.payments[i].tx)
  {
    LinksGrow(l, f, i + 1, |l.payments|);
    assert LinksUpTo(l, f, i + 1)[|LinksUpTo(l, f, i)|] == LinkAt(l, f, i);
  }

  /** Removing a transaction that is on none of the fee's links leaves the fee alone. */
  lemma RemovingUnlinked(l: Ledger, tx: TxId, f: FeeId)
    requires LiveFee(l, f) && LiveTx(l, tx) && !Linked(Links(l, f), tx)
    ensures Restored(l, tx, f) == l.fees[f] && Links(Tombstoned(l, tx), f) == Links(l, f)
  {
    var n := |l.payments|;
    FirstRemovedIsFirst(l, tx, f, n);
    TombstonedLinks(l, tx, f, n);
    WithoutUnlinked(Links(l, f), tx);
    var first := FirstRemoved(l, tx, f, n);
    if first.Some? {
      PaymentIsLinked(l, f, first.value);
    }
  }

  /** Removing a transaction that holds just the latest link of a fee brings back what was before that link. */
  lemma RemovingLatest(l: Ledger, tx: TxId, f: FeeId, before: seq<Link>, last: Link)
    requires LiveFee(l, f) && LiveTx(l, tx)
    requires Links(l, f) == before + [last] && last.tx == tx && !Linked(before, tx)
    ensures Restored(l, tx, f) == l.fees[f].(paidDate := last.prior)
    ensures Links(Tombstoned(l, tx), f) == before
  {
    var n, l' := |l.payments|, Tombstoned(l, tx);
    TombstonedLinks(l, tx, f, n);
    assert Links(l, f)[..|before|] == before;
    WithoutUnlinked(before, tx);

    FirstRemovedIsFirst(l, tx, f, n);
    var i := LinkComesFromPayment(l, f, n, |before|);
    assert IsRemoved(l, tx, f, i);
    var first := FirstRemoved(l, tx, f, n).value;
    PaymentIsLinked(l, f, first);
    var k := |LinksUpTo(l, f, first)|;
    assert Links(l, f)[k].tx == tx && forall j | 0 <= j < |before| :: Links(l, f)[j].tx != tx;
    LinksGrow(l, f, first + 1, n);

    TombstonedLinks(l, tx, f, first + 1);
    assert LinksUpTo(l, f, first + 1) == Links(l, f);
  }

  /** Confirming appends one link to each allocated fee and leaves the links of the others alone. */
  lemma {:induction false} AssignedLinks(l: Ledger, tx: TxId, allocations: seq<Allocation>, f: FeeId, m: nat)
    requires Confirmable(l, tx, allocations) && m <= |allocations|
    ensures forall k | 0 <= k < m && allocations[k].fee == f ::
      assert allocations[k] in allocations;
      LinksUpTo(Assigned(l, tx, allocations), f, |l.payments| + m) == Links(l, f) + [NewLink(l, tx, allocations[k])]
    ensures !Allocates(allocations[..m], f) ==>
            LinksUpTo(Assigned(l, tx, allocations), f, |l.payments| + m) == Links(l, f)
  {
    var l' := Assigned(l, tx, allocations);
    if m == 0 {
      SameLinks(l, l', f, |l.payments|);
    } else {
      AssignedLinks(l, tx, allocations, f, m - 1);
      var a := allocations[m - 1];
      assert a in allocations && l'.payments[|l.payments| + m - 1] == NewPayment(l, tx, a);
      assert forall k | 0 <= k < m - 1 :: allocations[..m][k] == allocations[..m - 1][k] == allocations[k];
      if Allocates(allocations[..m - 1], f) {
        var k :| 0 <= k < m - 1 && allocations[..m - 1][k].fee == f;
        assert allocations[..m][k].fee == f;
        assert allocations[k].fee == f;
      }
      assert allocations[..m][m - 1] == a;
    }
  }
}
