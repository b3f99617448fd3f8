/** What every run of confirmations and latest-first undos keeps. */
module LedgerRuns {
  import opened Wrappers
  import opened Ledger

  // ---------- The paid date a fee's links imply ----------

  function Derived(base: Option<Day>, amount: int, links: seq<Link>): Option<Day> {
    if links == [] then base
    else if links[|links| - 1].amount < 0 || SinceReturn(links) < amount then None
    else LastPayment(links)
  }

  function CountedAsPaid(base: Option<Day>, amount: int, links: seq<Link>): int {
    if Derived(base, amount, links).Some? then amount else SinceReturn(links)
  }

  /** Each link fitted what was due or paid when it was made, and remembers the paid date from before it. */
  predicate GoodHistory(base: Option<Day>, amount: int, links: seq<Link>) {
    links == [] ||
    var before, last := links[..|links| - 1], links[|links| - 1];
    && GoodHistory(base, amount, before)
    && !Linked(before, last.tx)
    && last.prior == Derived(base, amount, before)
    && if last.amount < 0 then -last.amount <= CountedAsPaid(base, amount, before)
       else last.amount > 0 && last.prior.None? && SinceReturn(before) + last.amount <= amount
  }

  /** The paid date a fee had before its first link. */
  function Base(fee: Fee, links: seq<Link>): Option<Day> {
    if links == [] then fee.paidDate else links[0].prior
  }

  predicate GoodFee(fee: Fee, links: seq<Link>) {
    GoodHistory(Base(fee, links), fee.amount, links) && fee.paidDate == Derived(Base(fee, links), fee.amount, links)
  }

  // ---------- What is assigned by a transaction ----------

  function Cents(amount: int): int {
    if amount < 0 then -amount else amount
  }

  predicate CountsFor(l: Ledger, tx: TxId, i: nat) {
    i < |l.payments| && l.payments[i].tx == tx && !l.payments[i].deleted && LiveFee(l, l.payments[i].fee)
  }

  function AssignedCents(l: Ledger, tx: TxId, n: nat): int
    requires n <= |l.payments|
  {
    if n == 0 then 0
    else AssignedCents(l, tx, n - 1) + if CountsFor(l, tx, n - 1) then Cents(l.payments[n - 1].amount) else 0
  }

  ghost predicate Good(l: Ledger) {
    && (forall f | LiveFee(l, f) :: GoodFee(l.fees[f], Links(l, f)))
    && (forall tx | LiveTx(l, tx) && HasPayments(l, tx) :: AssignedCents(l, tx, |l.payments|) <= l.txs[tx].amount)
  }

  // ---------- Confirming ----------

  lemma UnassignedIsUnlinked(l: Ledger, tx: TxId, f: FeeId)
    requires !HasPayments(l, tx) && LiveFee(l, f)
    ensures !Linked(Links(l, f), tx)
  {
    if Linked(Links(l, f), tx) {
      var k :| 0 <= k < |Links(l, f)| && Links(l, f)[k].tx == tx;
      var i := LinkComesFromPayment(l, f, |l.payments|, k);
    }
  }

  lemma AppendingKeepsGoodFee(fee: Fee, links: seq<Link>, link: Link)
    requires GoodFee(fee, links) && !Linked(links, link.tx) && link.prior == fee.paidDate
    requires if link.amount < 0 then -link.amount <= PaidCents(fee, links)
             else link.amount > 0 && fee.paidDate.None? && link.amount <= fee.amount - SinceReturn(links)
    ensures GoodFee(Settled(fee, links + [link]), links + [link])
  {
    var all := links + [link];
    assert all[..|all| - 1] == links;
    assert Base(fee, all) == Base(fee, links);
  }

  lemma ConfirmedFee(l: Ledger, tx: TxId, allocations: seq<Allocation>, f: FeeId)
    requires Confirmable(l, tx, allocations) && f in l.fees
    ensures Confirmed(l, tx, allocations).fees.Keys == l.fees.Keys
    ensures var l' := Confirmed(l, tx, allocations);
      forall k | 0 <= k < |allocations| && allocations[k].fee == f ::
        assert allocations[k] in allocations;
        var link := NewLink(l, tx, allocations[k]);
        Links(l', f) == Links(l, f) + [link] && l'.fees[f] == Settled(l.fees[f], Links(l, f) + [link])
    ensures var l' := Confirmed(l, tx, allocations);
      !Allocates(allocations, f) ==> Links(l', f) == Links(l, f) && l'.fees[f] == l.fees[f]
  {
    var l' := Confirmed(l, tx, allocations);
    AssignedLinks(l, tx, allocations, f, |allocations|);
    assert allocations[..|allocations|] == allocations;
    SameLinks(l', Assigned(l, tx, allocations), f, |l'.payments|);
  }

  lemma ConfirmKeepsGoodFee(l: Ledger, tx: TxId, allocations: seq<Allocation>, f: FeeId)
    requires Confirmable(l, tx, allocations) && LiveFee(l, f) && GoodFee(l.fees[f], Links(l, f))
    ensures var l' := Confirmed(l, tx, allocations); f in l'.fees && GoodFee(l'.fees[f], Links(l', f))
  {
    ConfirmedFee(l, tx, allocations, f);
    if Allocates(allocations, f) {
      var k :| 0 <= k < |allocations| && allocations[k].fee == f;
      var a := allocations[k];
      assert a in allocations && Assignable(l, a, l.txs[tx].isReturn);
      UnassignedIsUnlinked(l, tx, f);
      AppendingKeepsGoodFee(l.fees[f], Links(l, f), NewLink(l, tx, a));
    }
  }

  lemma {:induction false} NothingAssigned(l: Ledger, tx: TxId, n: nat)
    requires n <= |l.payments| && !HasPayments(l, tx)
    ensures AssignedCents(l, tx, n) == 0
  {
    if n > 0 {
      NothingAssigned(l, tx, n - 1);
    }
  }

  /** Payments that count the same up to `n` assign the same. */
  lemma {:induction false} SameAssigned(l: Ledger, l': Ledger, tx: TxId, n: nat)
    requires n <= |l.payments| && n <= |l'.payments|
    requires forall i | 0 <= i < n :: CountsFor(l, tx, i) == CountsFor(l', tx, i)
    requires forall i | 0 <= i < n :: l.payments[i].amount == l'.payments[i].amount
    ensures AssignedCents(l, tx, n) == AssignedCents(l', tx, n)
  {
    if n > 0 {
      SameAssigned(l, l', tx, n - 1);
    }
  }

  lemma {:induction false} ConfirmedAssigns(l: Ledger, tx: TxId, allocations: seq<Allocation>, other: TxId, m: nat)
    requires Confirmable(l, tx, allocations) && m <= |allocations|
    ensures var l' := Confirmed(l, tx, allocations);
      AssignedCents(l', other, |l.payments| + m) ==
        AssignedCents(l, other, |l.payments|) + if other == tx then Total(allocations[..m]) else 0
  {
    var l' := Confirmed(l, tx, allocations);
    if m == 0 {
      forall f ensures LiveFee(l, f) == LiveFee(l', f) {
        if f in l.fees {
          ConfirmedFee(l, tx, allocations, f);
        }
      }
      SameAssigned(l, l', other, |l.payments|);
    } else {
      ConfirmedAssigns(l, tx, allocations, other, m - 1);
      var a := allocations[m - 1];
      assert a in allocations && Assignable(l, a, l.txs[tx].isReturn);
      assert l'.payments[|l.payments| + m - 1] == NewPayment(l, tx, a);
      assert Allocates(allocations, a.fee);
      assert LiveFee(l', a.fee);
      assert allocations[..m][..m - 1] == allocations[..m - 1];
    }
  }

  lemma ConfirmKeepsGood(l: Ledger, tx: TxId, allocations: seq<Allocation>)
    requires Good(l) && Confirmable(l, tx, allocations)
    ensures Good(Confirmed(l, tx, allocations))
  {
    var l' := Confirmed(l, tx, allocations);
    forall f | LiveFee(l', f) ensures GoodFee(l'.fees[f], Links(l', f)) {
      ConfirmKeepsGoodFee(l, tx, allocations, f);
    }
    forall other | LiveTx(l', other) && HasPayments(l', other)
      ensures AssignedCents(l', other, |l'.payments|) <= l'.txs[other].amount
    {
      ConfirmedAssigns(l, tx, allocations, other, |allocations|);
      assert allocations[..|allocations|] == allocations;
      if other == tx {
        NothingAssigned(l, tx, |l.payments|);
      } else {
        OthersKeepPayments(l, tx, allocations, other);
      }
    }
  }

  lemma OthersKeepPayments(l: Ledger, tx: TxId, allocations: seq<Allocation>, other: TxId)
    requires Confirmable(l, tx, allocations) && other != tx
    ensures HasPayments(Confirmed(l, tx, allocations), other) ==> HasPayments(l, other)
  {
    var l' := Confirmed(l, tx, allocations);
    if HasPayments(l', other) {
      var i :| 0 <= i < |l'.payments| &&
               l'.payments[i].tx == other && !l'.payments[i].deleted && LiveFee(l', l'.payments[i].fee);
      assert i < |l.payments|;
      assert LiveFee(l, l.payments[i].fee);
    }
  }

  // ---------- Undoing the latest assignments ----------

  /** The transaction after it was reopened or deleted. */
  function Undone(tx: Tx, delete: bool): Tx {
    if delete then tx.(deleted := true) else tx.(dismissed := false)
  }

  function Undo(l: Ledger, tx: TxId, delete: bool): Ledger
    requires LiveTx(l, tx)
  {
    if delete then WithoutTx(l, tx) else Reopened(l, tx)
  }

  /** No fee has an assignment made after one of this transaction. */
  predicate Latest(l: Ledger, tx: TxId) {
    forall f | f in l.fees && LiveFee(l, f) && Linked(Links(l, f), tx) :: Links(l, f)[|Links(l, f)| - 1].tx == tx
  }

  lemma {:induction false} FirstRemovedIgnoresTxs(l: Ledger, l': Ledger, tx: TxId, f: FeeId, n: nat)
    requires n <= |l.payments| && l.payments == l'.payments
    ensures FirstRemoved(l, tx, f, n) == FirstRemoved(l', tx, f, n)
  {
    if n > 0 {
      FirstRemovedIgnoresTxs(l, l', tx, f, n - 1);
    }
  }

  /** Undoing works on the assignments alone: it does not matter that the transaction is changed first. */
  lemma UndoneFee(l: Ledger, tx: TxId, delete: bool, f: FeeId)
    requires LiveTx(l, tx) && f in l.fees
    ensures Undo(l, tx, delete).fees.Keys == l.fees.Keys
    ensures Undo(l, tx, delete).fees[f] == Restored(l, tx, f)
    ensures Links(Undo(l, tx, delete), f) == Links(Tombstoned(l, tx), f)
  {
    var l0 := l.(txs := l.txs[tx := Undone(l.txs[tx], delete)]);
    var n := |l.payments|;
    FirstRemovedIgnoresTxs(l, l0, tx, f, n);
    SameLinks(Tombstoned(l0, tx), Tombstoned(l, tx), f, n);
    SameLinks(Undo(l, tx, delete), Tombstoned(l, tx), f, n);
    FirstRemovedIsFirst(l, tx, f, n);
    var first := FirstRemoved(l, tx, f, n);
    if first.Some? {
      SameLinks(Tombstoned(l0, tx), Tombstoned(l, tx), f, first.value + 1);
    }
  }

  /** Undoing the latest assignment of a fee gives back exactly what was before it. */
  lemma UndoneLatest(l: Ledger, tx: TxId, delete: bool, f: FeeId, before: seq<Link>, last: Link)
    requires LiveTx(l, tx) && LiveFee(l, f)
    requires Links(l, f) == before + [last] && last.tx == tx && !Linked(before, tx)
    ensures var l' := Undo(l, tx, delete);
      f in l'.fees && Links(l', f) == before && l'.fees[f] == l.fees[f].(paidDate := last.prior)
  {
    UndoneFee(l, tx, delete, f);
    RemovingLatest(l, tx, f, before, last);
  }

  lemma UndoneUnlinked(l: Ledger, tx: TxId, delete: bool, f: FeeId)
    requires LiveTx(l, tx) && LiveFee(l, f) && !Linked(Links(l, f), tx)
    ensures var l' := Undo(l, tx, delete); f in l'.fees && Links(l', f) == Links(l, f) && l'.fees[f] == l.fees[f]
  {
    UndoneFee(l, tx, delete, f);
    RemovingUnlinked(l, tx, f);
  }

  lemma UndoKeepsGoodFee(l: Ledger, tx: TxId, delete: bool, f: FeeId)
    requires LiveTx(l, tx) && LiveFee(l, f) && GoodFee(l.fees[f], Links(l, f)) && Latest(l, tx)
    ensures var l' := Undo(l, tx, delete); f in l'.fees && GoodFee(l'.fees[f], Links(l', f))
  {
    if Linked(Links(l, f), tx) {
      var n := |Links(l, f)| - 1;
      var before, last := Links(l, f)[..n], Links(l, f)[n];
      UndoneLatest(l, tx, delete, f, before, last);
      assert before != [] ==> before[0] == Links(l, f)[0];
    } else {
      UndoneUnlinked(l, tx, delete, f);
    }
  }

  lemma UndoKeepsAssigned(l: Ledger, tx: TxId, delete: bool, other: TxId)
    requires LiveTx(l, tx)
    ensures var l' := Undo(l, tx, delete);
      LiveTx(l', other) && HasPayments(l', other) ==>
        LiveTx(l, other) && HasPayments(l, other) &&
        AssignedCents(l', other, |l'.payments|) == AssignedCents(l, other, |l.payments|) &&
        l'.txs[other] == l.txs[other]
  {
    var l' := Undo(l, tx, delete);
    forall f ensures LiveFee(l, f) == LiveFee(l', f) {
      if f in l.fees {
        UndoneFee(l, tx, delete, f);
      }
    }
    if LiveTx(l', other) && HasPayments(l', other) {
      var i :| 0 <= i < |l'.payments| &&
               l'.payments[i].tx == other && !l'.payments[i].deleted && LiveFee(l', l'.payments[i].fee);
      assert other != tx && !l.payments[i].deleted && LiveFee(l, l.payments[i].fee);
      SameAssigned(l, l', other, |l.payments|);
    }
  }

  lemma UndoKeepsGood(l: Ledger, tx: TxId, delete: bool)
    requires Good(l) && LiveTx(l, tx) && Latest(l, tx)
    ensures Good(Undo(l, tx, delete))
  {
    var l' := Undo(l, tx, delete);
    forall f | LiveFee(l', f) ensures GoodFee(l'.fees[f], Links(l', f)) {
      UndoneFee(l, tx, delete, f);
      UndoKeepsGoodFee(l, tx, delete, f);
    }
    forall other | LiveTx(l', other) && HasPayments(l', other)
      ensures AssignedCents(l', other, |l'.payments|) <= l'.txs[other].amount
    {
      UndoKeepsAssigned(l, tx, delete, other);
    }
  }

  // ---------- Undoing a whole run ----------

  /** The fees and what is assigned to them are the same; transactions and tombstones may differ. */
  ghost predicate SameFees(l: Ledger, l': Ledger) {
    l.fees == l'.fees && forall f | LiveFee(l, f) :: Links(l, f) == Links(l', f)
  }

  lemma UndoRestores(l: Ledger, tx: TxId, allocations: seq<Allocation>, now: Ledger, delete: bool)
    requires Confirmable(l, tx, allocations) && SameFees(Confirmed(l, tx, allocations), now) && LiveTx(now, tx)
    ensures SameFees(l, Undo(now, tx, delete))
  {
    var l', then' := Confirmed(l, tx, allocations), Undo(now, tx, delete);
    forall f | f in l.fees
      ensures f in then'.fees && then'.fees[f] == l.fees[f]
      ensures LiveFee(l, f) ==> Links(then', f) == Links(l, f)
    {
      ConfirmedFee(l, tx, allocations, f);
      UndoneFee(now, tx, delete, f);
      if Allocates(allocations, f) {
        var k :| 0 <= k < |allocations| && allocations[k].fee == f;
        assert allocations[k] in allocations && Assignable(l, allocations[k], l.txs[tx].isReturn);
      }
      if LiveFee(l, f) {
        UnassignedIsUnlinked(l, tx, f);
        assert Links(now, f) == Links(l', f);
        if Allocates(allocations, f) {
          var k :| 0 <= k < |allocations| && allocations[k].fee == f;
          assert allocations[k] in allocations;
          UndoneLatest(now, tx, delete, f, Links(l, f), NewLink(l, tx, allocations[k]));
        } else {
          UndoneUnlinked(now, tx, delete, f);
        }
      }
    }
  }

  datatype Confirmation = Confirmation(tx: TxId, allocations: seq<Allocation>)

  predicate CanRun(l: Ledger, run: seq<Confirmation>)
    decreases |run|
  {
    run == [] || (Confirmable(l, run[0].tx, run[0].allocations) &&
                  CanRun(Confirmed(l, run[0].tx, run[0].allocations), run[1..]))
  }

  function AfterRun(l: Ledger, run: seq<Confirmation>): Ledger
    requires CanRun(l, run)
    decreases |run|
  {
    if run == [] then l else AfterRun(Confirmed(l, run[0].tx, run[0].allocations), run[1..])
  }

  /** The transactions of a run undone last first, each by reopening or by deleting it. */
  predicate CanUndo(l: Ledger, run: seq<Confirmation>, deletes: seq<bool>)
    requires |run| == |deletes|
    decreases |run|, 0
  {
    run == [] || (CanUndo(l, run[1..], deletes[1..]) && LiveTx(AfterUndo(l, run[1..], deletes[1..]), run[0].tx))
  }

  function AfterUndo(l: Ledger, run: seq<Confirmation>, deletes: seq<bool>): Ledger
    requires |run| == |deletes| && CanUndo(l, run, deletes)
    decreases |run|, 1
  {
    if run == [] then l else Undo(AfterUndo(l, run[1..], deletes[1..]), run[0].tx, deletes[0])
  }

  /** A confirmed transaction keeps its assignments while others are confirmed, so it is not confirmed again. */
  lemma {:induction false} ConfirmedOnce(l: Ledger, run: seq<Confirmation>, tx: TxId)
    requires CanRun(l, run) && HasPayments(l, tx)
    ensures forall i | 0 <= i < |run| :: run[i].tx != tx
    decreases |run|
  {
    if run != [] {
      var l' := Confirmed(l, run[0].tx, run[0].allocations);
      var i :| 0 <= i < |l.payments| &&
               l.payments[i].tx == tx && !l.payments[i].deleted && LiveFee(l, l.payments[i].fee);
      ConfirmedFee(l, run[0].tx, run[0].allocations, l.payments[i].fee);
      assert l'.payments[i] == l.payments[i] && LiveFee(l', l'.payments[i].fee);
      ConfirmedOnce(l', run[1..], tx);
      assert forall j | 0 < j < |run| :: run[j] == run[1..][j - 1];
    }
  }

  lemma ConfirmedHasPayments(l: Ledger, tx: TxId, allocations: seq<Allocation>)
    requires Confirmable(l, tx, allocations)
    ensures HasPayments(Confirmed(l, tx, allocations), tx) && LiveTx(Confirmed(l, tx, allocations), tx)
  {
    var l' := Confirmed(l, tx, allocations);
    var a := allocations[0];
    assert a in allocations && Assignable(l, a, l.txs[tx].isReturn) && Allocates(allocations, a.fee);
    assert l'.payments[|l.payments|] == NewPayment(l, tx, a) && LiveFee(l', a.fee);
  }

  /** Undoing a run in reverse order leaves the transactions outside the run alone. */
  lemma {:induction false} RunKeepsTxs(l: Ledger, run: seq<Confirmation>, deletes: seq<bool>, tx: TxId)
    requires |run| == |deletes| && CanRun(l, run) && LiveTx(l, tx)
    requires forall i | 0 <= i < |run| :: run[i].tx != tx
    requires CanUndo(AfterRun(l, run), run, deletes)
    ensures LiveTx(AfterUndo(AfterRun(l, run), run, deletes), tx)
    decreases |run|
  {
    if run != [] {
      RunKeepsTxs(Confirmed(l, run[0].tx, run[0].allocations), run[1..], deletes[1..], tx);
    }
  }

  /** Any run of confirmations, undone in reverse order by reopening or deleting, gives back every fee. */
  lemma {:induction false} UndoingARunRestoresFees(l: Ledger, run: seq<Confirmation>, deletes: seq<bool>)
    requires |run| == |deletes| && CanRun(l, run)
    ensures CanUndo(AfterRun(l, run), run, deletes)
    ensures SameFees(l, AfterUndo(AfterRun(l, run), run, deletes))
    decreases |run|
  {
    if run != [] {
      var tx, allocations := run[0].tx, run[0].allocations;
      var l' := Confirmed(l, tx, allocations);
      UndoingARunRestoresFees(l', run[1..], deletes[1..]);
      ConfirmedHasPayments(l, tx, allocations);
      ConfirmedOnce(l', run[1..], tx);
      RunKeepsTxs(l', run[1..], deletes[1..], tx);
      UndoRestores(l, tx, allocations, AfterUndo(AfterRun(l, run), run[1..], deletes[1..]), deletes[0]);
    }
  }

  /** In particular the paid date and the sum since the last return of every fee. */
  lemma UndoingARunRestoresSums(l: Ledger, run: seq<Confirmation>, deletes: seq<bool>, f: FeeId)
    requires |run| == |deletes| && CanRun(l, run) && LiveFee(l, f)
    ensures CanUndo(AfterRun(l, run), run, deletes)
    ensures var l' := AfterUndo(AfterRun(l, run), run, deletes);
      f in l'.fees && l'.fees[f].paidDate == l.fees[f].paidDate && SinceReturn(Links(l', f)) == SinceReturn(Links(l, f))
  {
    UndoingARunRestoresFees(l, run, deletes);
  }

  // ---------- Every run ----------

  datatype Step =
    | Confirm(tx: TxId, allocations: seq<Allocation>)
    | UndoLatest(tx: TxId, delete: bool)
    | Dismiss(tx: TxId)
    | DeleteFee(fee: FeeId)
    | DropFee(fee: FeeId)
    | Import(tx: TxId, row: Tx)
    | CreateFee(fee: FeeId, due: Fee)

  predicate Enabled(l: Ledger, step: Step) {
    match step
    case Confirm(tx, allocations) => Confirmable(l, tx, allocations)
    case UndoLatest(tx, _) => LiveTx(l, tx) && Latest(l, tx)
    case Dismiss(tx) => IsEntry(l, tx) && !HasPayments(l, tx)
    case DeleteFee(f) => LiveFee(l, f)
    case DropFee(f) => LiveFee(l, f)
    case Import(tx, _) => IsNewTx(l, tx)
    case CreateFee(f, _) => IsNewFee(l, f)
  }

  function Next(l: Ledger, step: Step): Ledger
    requires Enabled(l, step)
  {
    match step
    case Confirm(tx, allocations) => Confirmed(l, tx, allocations)
    case UndoLatest(tx, delete) => Undo(l, tx, delete)
    case Dismiss(tx) => l.(txs := l.txs[tx := l.txs[tx].(dismissed := true)])
    case DeleteFee(f) => WithoutFee(l, f)
    case DropFee(f) => Dropped(l, f)
    case Import(tx, row) => l.(txs := l.txs[tx := row])
    case CreateFee(f, due) => l.(fees := l.fees[f := due])
  }

  /** Deleting a billing run tombstones its open fees but not what is assigned to them. */
  function Dropped(l: Ledger, f: FeeId): Ledger
    requires f in l.fees
  {
    l.(fees := l.fees[f := l.fees[f].(deleted := true)])
  }

  lemma DismissKeepsGood(l: Ledger, tx: TxId)
    requires Good(l) && LiveTx(l, tx)
    ensures Good(l.(txs := l.txs[tx := l.txs[tx].(dismissed := true)]))
  {
    var l' := l.(txs := l.txs[tx := l.txs[tx].(dismissed := true)]);
    forall f | LiveFee(l', f) ensures GoodFee(l'.fees[f], Links(l', f)) {
      assert LiveFee(l, f);
      SameLinks(l, l', f, |l.payments|);
    }
    forall other | LiveTx(l', other) && HasPayments(l', other)
      ensures AssignedCents(l', other, |l'.payments|) <= l'.txs[other].amount
    {
      assert LiveTx(l, other) && HasPayments(l, other);
      SameAssigned(l, l', other, |l.payments|);
    }
  }

  lemma {:induction false} DeletingAFeeAssignsLess(l: Ledger, f: FeeId, tx: TxId, n: nat)
    requires LiveFee(l, f) && n <= |l.payments|
    ensures AssignedCents(WithoutFee(l, f), tx, n) <= AssignedCents(l, tx, n)
  {
    if n > 0 {
      DeletingAFeeAssignsLess(l, f, tx, n - 1);
    }
  }

  lemma DeleteFeeKeepsGood(l: Ledger, f: FeeId)
    requires Good(l) && LiveFee(l, f)
    ensures Good(WithoutFee(l, f))
  {
    var l' := WithoutFee(l, f);
    forall g | LiveFee(l', g) ensures GoodFee(l'.fees[g], Links(l', g)) {
      assert LiveFee(l, g) && g != f;
      SameLinks(l, l', g, |l.payments|);
    }
    forall tx | LiveTx(l', tx) && HasPayments(l', tx)
      ensures AssignedCents(l', tx, |l'.payments|) <= l'.txs[tx].amount
    {
      var i :| 0 <= i < |l'.payments| &&
               l'.payments[i].tx == tx && !l'.payments[i].deleted && LiveFee(l', l'.payments[i].fee);
      assert !l.payments[i].deleted && LiveFee(l, l.payments[i].fee);
      assert LiveTx(l, tx) && HasPayments(l, tx);
      DeletingAFeeAssignsLess(l, f, tx, |l.payments|);
    }
  }

  lemma {:induction false} DroppingAFeeAssignsLess(l: Ledger, f: FeeId, tx: TxId, n: nat)
    requires LiveFee(l, f) && n <= |l.payments|
    ensures AssignedCents(Dropped(l, f), tx, n) <= AssignedCents(l, tx, n)
  {
    if n > 0 {
      DroppingAFeeAssignsLess(l, f, tx, n - 1);
    }
  }

  lemma DropFeeKeepsGood(l: Ledger, f: FeeId)
    requires Good(l) && LiveFee(l, f)
    ensures Good(Dropped(l, f))
  {
    var l' := Dropped(l, f);
    forall g | LiveFee(l', g) ensures GoodFee(l'.fees[g], Links(l', g)) {
      assert LiveFee(l, g) && g != f;
      SameLinks(l, l', g, |l.payments|);
    }
    forall tx | LiveTx(l', tx) && HasPayments(l', tx)
      ensures AssignedCents(l', tx, |l'.payments|) <= l'.txs[tx].amount
    {
      var i :| 0 <= i < |l'.payments| &&
               l'.payments[i].tx == tx && !l'.payments[i].deleted && LiveFee(l', l'.payments[i].fee);
      assert LiveFee(l, l.payments[i].fee);
      assert LiveTx(l, tx) && HasPayments(l, tx);
      DroppingAFeeAssignsLess(l, f, tx, |l.payments|);
    }
  }

  /**
   * A reviewed entry waits for review again just when all its assignments are to the dropped fee, although they are
   * still there.
   */
  lemma DroppingAFeeReopensEntries(l: Ledger, f: FeeId, tx: TxId)
    requires LiveFee(l, f) && HasPayments(l, tx)
    requires IsEntry(l, tx) && !l.txs[tx].dismissed && (l.txs[tx].income || l.txs[tx].isReturn)
    ensures !OpenEntry(l, tx) && Dropped(l, f).payments == l.payments
    ensures OpenEntry(Dropped(l, f), tx) <==> forall i: nat :: CountsFor(l, tx, i) ==> l.payments[i].fee == f
  {
    var l' := Dropped(l, f);
    forall i: nat ensures CountsFor(l', tx, i) <==> CountsFor(l, tx, i) && l.payments[i].fee != f {
    }
    assert HasPayments(l', tx) <==> exists i: nat :: CountsFor(l', tx, i);
  }

  /** An id that no table uses yet. */
  predicate IsNewTx(l: Ledger, tx: TxId) {
    tx !in l.txs && forall i | 0 <= i < |l.payments| :: l.payments[i].tx != tx
  }

  predicate IsNewFee(l: Ledger, f: FeeId) {
    f !in l.fees && forall i | 0 <= i < |l.payments| :: l.payments[i].fee != f
  }

  lemma ImportKeepsGood(l: Ledger, tx: TxId, row: Tx)
    requires Good(l) && IsNewTx(l, tx)
    ensures Good(l.(txs := l.txs[tx := row]))
  {
    var l' := l.(txs := l.txs[tx := row]);
    forall f | LiveFee(l', f) ensures GoodFee(l'.fees[f], Links(l', f)) {
      assert LiveFee(l, f);
      SameLinks(l, l', f, |l.payments|);
    }
    forall other | LiveTx(l', other) && HasPayments(l', other)
      ensures AssignedCents(l', other, |l'.payments|) <= l'.txs[other].amount
    {
      assert LiveTx(l, other) && HasPayments(l, other);
      SameAssigned(l, l', other, |l.payments|);
    }
  }

  lemma CreateFeeKeepsGood(l: Ledger, f: FeeId, row: Fee)
    requires Good(l) && IsNewFee(l, f)
    ensures Good(l.(fees := l.fees[f := row]))
  {
    var l' := l.(fees := l.fees[f := row]);
    forall g | LiveFee(l', g) ensures GoodFee(l'.fees[g], Links(l', g)) {
      SameLinks(l, l', g, |l.payments|);
      if g == f {
        NothingLinked(l, f, |l.payments|);
      } else {
        assert LiveFee(l, g);
      }
    }
    forall tx | LiveTx(l', tx) && HasPayments(l', tx)
      ensures AssignedCents(l', tx, |l'.payments|) <= l'.txs[tx].amount
    {
      assert LiveTx(l, tx) && HasPayments(l, tx);
      SameAssigned(l, l', tx, |l.payments|);
    }
  }

  lemma {:induction false} NothingLinked(l: Ledger, f: FeeId, n: nat)
    requires n <= |l.payments| && forall i | 0 <= i < n :: l.payments[i].fee != f
    ensures LinksUpTo(l, f, n) == []
  {
    if n > 0 {
      NothingLinked(l, f, n - 1);
    }
  }

  predicate IsRun(states: seq<Ledger>, steps: seq<Step>) {
    && |states| == |steps| + 1
    && forall i | 0 <= i < |steps| :: Enabled(states[i], steps[i]) && states[i + 1] == Next(states[i], steps[i])
  }

  /** Every state of every run is good. */
  lemma {:induction false} EveryRunIsGood(states: seq<Ledger>, steps: seq<Step>, n: nat)
    requires IsRun(states, steps) && Good(states[0]) && n < |states|
    ensures Good(states[n])
  {
    if n > 0 {
      EveryRunIsGood(states, steps, n - 1);
      match steps[n - 1]
      case Confirm(tx, allocations) => ConfirmKeepsGood(states[n - 1], tx, allocations);
      case UndoLatest(tx, delete) => UndoKeepsGood(states[n - 1], tx, delete);
      case Dismiss(tx) => DismissKeepsGood(states[n - 1], tx);
      case DeleteFee(f) => DeleteFeeKeepsGood(states[n - 1], f);
      case DropFee(f) => DropFeeKeepsGood(states[n - 1], f);
      case Import(tx, row) => ImportKeepsGood(states[n - 1], tx, row);
      case CreateFee(f, due) => CreateFeeKeepsGood(states[n - 1], f, due);
    }
  }

  /** A ledger without assignments is good, however its fees were paid. */
  lemma UnassignedIsGood(l: Ledger)
    requires l.payments == []
    ensures Good(l)
  {
  }

  /**
   * What a good ledger means: a fee with assignments is never overpaid since its last return, and is paid just when its
   * last assignment is a payment and the payments since the last return reach its amount, then on the date of the
   * latest payment; a transaction never assigns more than its amount.
   */
  lemma GoodMeans(l: Ledger, f: FeeId, tx: TxId)
    requires Good(l)
    ensures LiveFee(l, f) && Links(l, f) != [] ==>
      var fee, links := l.fees[f], Links(l, f);
      && SinceReturn(links) <= fee.amount
      && (fee.paidDate.Some? <==> links[|links| - 1].amount > 0 && SinceReturn(links) == fee.amount)
      && (fee.paidDate.Some? ==> fee.paidDate == LastPayment(links))
    ensures LiveTx(l, tx) && HasPayments(l, tx) ==> AssignedCents(l, tx, |l.payments|) <= l.txs[tx].amount
  {
    if LiveFee(l, f) && Links(l, f) != [] {
      var fee, links := l.fees[f], Links(l, f);
      assert GoodHistory(Base(fee, links), fee.amount, links);
      GoodHistoryIsBounded(Base(fee, links), fee.amount, links);
    }
  }

  lemma {:induction false} GoodHistoryIsBounded(base: Option<Day>, amount: int, links: seq<Link>)
    requires GoodHistory(base, amount, links) && links != []
    ensures 0 <= SinceReturn(links) <= amount && 0 < amount
  {
    var before := links[..|links| - 1];
    if before != [] {
      GoodHistoryIsBounded(base, amount, before);
    }
  }

  // ---------- Undoing out of order ----------

  predicate HasReturn(links: seq<Link>) {
    exists i :: 0 <= i < |links| && links[i].amount < 0
  }

  lemma {:induction false} SinceReturnOfConcat(a: seq<Link>, b: seq<Link>)
    ensures SinceReturn(a + b) == if HasReturn(b) then SinceReturn(b) else SinceReturn(a) + SinceReturn(b)
  {
    if b == [] {
      assert a + b == a;
    } else {
      var n := |b| - 1;
      assert (a + b)[..|a| + n] == a + b[..n];
      SinceReturnOfConcat(a, b[..n]);
      if HasReturn(b) && b[n].amount >= 0 {
        var i :| 0 <= i < |b| && b[i].amount < 0;
        assert b[..n][i] == b[i];
      }
    }
  }

  lemma {:induction false} WithoutMiddle(before: seq<Link>, link: Link, after: seq<Link>)
    requires !Linked(before, link.tx) && !Linked(after, link.tx)
    ensures Without(before + [link] + after, link.tx) == before + after
  {
    var all := before + [link] + after;
    if after == [] {
      assert all[..|before|] == before;
      WithoutUnlinked(before, link.tx);
      assert before + after == before;
    } else {
      var n := |after| - 1;
      assert all[..|all| - 1] == before + [link] + after[..n];
      assert forall i | 0 <= i < n :: after[..n][i] == after[i];
      WithoutMiddle(before, link, after[..n]);
      assert before + after[..n] + [after[n]] == before + after;
    }
  }

  lemma {:induction false} LinksHaveDistinctTxs(base: Option<Day>, amount: int, links: seq<Link>, i: nat, j: nat)
    requires GoodHistory(base, amount, links) && i < j < |links|
    ensures links[i].tx != links[j].tx
  {
    var before := links[..|links| - 1];
    assert before[i] == links[i];
    if j < |links| - 1 {
      LinksHaveDistinctTxs(base, amount, before, i, j);
    }
  }

  /** The first payment to be removed is no later than the link it stands for. */
  lemma FirstRemovedIsNoLater(l: Ledger, tx: TxId, f: FeeId, k: nat)
    requires LiveTx(l, tx) && k < |Links(l, f)| && Links(l, f)[k].tx == tx
    ensures var first := FirstRemoved(l, tx, f, |l.payments|);
      first.Some? && IsLink(l, f, first.value) && l.payments[first.value].tx == tx &&
      |LinksUpTo(l, f, first.value)| <= k
  {
    var n := |l.payments|;
    FirstRemovedIsFirst(l, tx, f, n);
    var i := LinkComesFromPayment(l, f, n, k);
    assert IsRemoved(l, tx, f, i);
    LinksGrow(l, f, FirstRemoved(l, tx, f, n).value, i);
  }

  /** If the fee has a later link than the one removed, it is settled from the links that remain. */
  lemma RemovingEarlierSettles(l: Ledger, tx: TxId, f: FeeId, before: seq<Link>, link: Link, after: seq<Link>)
    requires LiveTx(l, tx) && LiveFee(l, f) && link.tx == tx && after != []
    requires Links(l, f) == before + [link] + after && !Linked(before, tx) && !Linked(after, tx)
    ensures Links(Tombstoned(l, tx), f) == before + after
    ensures Restored(l, tx, f) == Settled(l.fees[f], before + after)
  {
    TombstonedLinks(l, tx, f, |l.payments|);
    WithoutMiddle(before, link, after);
    FirstRemovedIsNoLater(l, tx, f, |before|);
    var first := FirstRemoved(l, tx, f, |l.payments|).value;
    TombstonedLinks(l, tx, f, first + 1);
    var upTo := LinksUpTo(l, f, first + 1);
    assert upTo[..|upTo| - 1] == LinksUpTo(l, f, first);
    WithoutIsNoLonger(LinksUpTo(l, f, first), tx);
  }

  lemma {:induction false} WithoutIsNoLonger(links: seq<Link>, tx: TxId)
    ensures |Without(links, tx)| <= |links|
  {
    if links != [] {
      WithoutIsNoLonger(links[..|links| - 1], tx);
    }
  }

  lemma OtherLinksHaveOtherTxs(base: Option<Day>, amount: int, before: seq<Link>, link: Link, after: seq<Link>)
    requires GoodHistory(base, amount, before + [link] + after)
    ensures !Linked(before, link.tx) && !Linked(after, link.tx)
  {
    var all := before + [link] + after;
    forall i | 0 <= i < |before| ensures before[i].tx != link.tx {
      LinksHaveDistinctTxs(base, amount, all, i, |before|);
      assert all[i] == before[i];
    }
    forall i | 0 <= i < |after| ensures after[i].tx != link.tx {
      LinksHaveDistinctTxs(base, amount, all, |before|, |before| + 1 + i);
      assert all[|before| + 1 + i] == after[i];
    }
  }

  /** Taking a link out leaves too much paid only by taking back the last return. */
  lemma TakingBackAReturn(base: Option<Day>, amount: int, before: seq<Link>, link: Link, after: seq<Link>)
    requires GoodHistory(base, amount, before + [link] + after)
    ensures SinceReturn(before + after) > amount <==>
      link.amount < 0 && !HasReturn(after) && SinceReturn(before) + SinceReturn(after) > amount
  {
    GoodHistoryIsBounded(base, amount, before + [link] + after);
    GoodPrefix(base, amount, before + [link] + after, |before| + 1);
    assert (before + [link] + after)[..|before| + 1] == before + [link];
    assert (before + [link])[..|before|] == before;
    SinceReturnOfConcat(before, after);
    SinceReturnOfConcat(before + [link], after);
  }

  lemma {:induction false} GoodPrefix(base: Option<Day>, amount: int, links: seq<Link>, n: nat)
    requires GoodHistory(base, amount, links) && n <= |links|
    ensures GoodHistory(base, amount, links[..n])
  {
    if n < |links| {
      assert links[..|links| - 1][..n] == links[..n];
      GoodPrefix(base, amount, links[..|links| - 1], n);
    } else {
      assert links[..n] == links;
    }
  }

  lemma {:induction false} LastPaymentOfConcat(a: seq<Link>, b: seq<Link>)
    ensures LastPayment(a + b) ==
            if LastPayment(a).None? then LastPayment(b)
            else if LastPayment(b).None? || LastPayment(a).value > LastPayment(b).value then LastPayment(a)
            else LastPayment(b)
  {
    if b == [] {
      assert a + b == a;
    } else {
      var n := |b| - 1;
      assert (a + b)[..|a| + n] == a + b[..n];
      LastPaymentOfConcat(a, b[..n]);
    }
  }

  /** Taking a link out changes the date of the latest payment just when it is a payment later than all others. */
  lemma LatestPaymentTakenOut(before: seq<Link>, link: Link, after: seq<Link>)
    ensures LastPayment(before + [link] + after) != LastPayment(before + after) <==>
      link.amount > 0 && (LastPayment(before + after).Some? ==> LastPayment(before + after).value < link.date)
  {
    assert [link][..0] == [];
    LastPaymentOfConcat(before, [link]);
    LastPaymentOfConcat(before + [link], after);
    LastPaymentOfConcat(before, after);
  }

  /** The paid date of the fee is the one its links imply. */
  predicate HasImpliedDate(fee: Fee, base: Option<Day>, links: seq<Link>) {
    fee.paidDate == Derived(base, fee.amount, links)
  }

  /** The fee is paid, and the link to take out is its latest payment by date but has a return behind it. */
  ghost predicate OutlastsItsDate(fee: Fee, before: seq<Link>, link: Link, after: seq<Link>) {
    && fee.paidDate.Some? && link.amount > 0 && HasReturn(after)
    && (LastPayment(before + after).Some? ==> LastPayment(before + after).value < link.date)
  }

  /**
   * Reopening any transaction of a good ledger, also one that is not the latest of a fee: when the fee is left with the
   * paid date that the remaining links imply. Otherwise it keeps the date of the payment that was reopened.
   */
  lemma ReopeningOutOfOrder(l: Ledger, tx: TxId, delete: bool, f: FeeId, before: seq<Link>, link: Link,
                            after: seq<Link>)
    requires Good(l) && LiveTx(l, tx) && LiveFee(l, f)
    requires Links(l, f) == before + [link] + after && link.tx == tx
    ensures var l' := Undo(l, tx, delete);
      && f in l'.fees
      && Links(l', f) == before + after
      && (HasImpliedDate(l'.fees[f], Base(l.fees[f], Links(l, f)), before + after) <==>
            !OutlastsItsDate(l.fees[f], before, link, after))
      && (OutlastsItsDate(l.fees[f], before, link, after) ==> l'.fees[f].paidDate == Some(link.date))
  {
    if after == [] {
      assert before + [link] + [] == before + [link] && before + [] == before;
      ReopeningLatest(l, tx, delete, f, before, link);
    } else {
      ReopeningEarlier(l, tx, delete, f, before, link, after);
      SettledWithoutOne(l.fees[f], Base(l.fees[f], Links(l, f)), before, link, after);
    }
  }

  lemma ReopeningLatest(l: Ledger, tx: TxId, delete: bool, f: FeeId, before: seq<Link>, link: Link)
    requires Good(l) && LiveTx(l, tx) && LiveFee(l, f) && Links(l, f) == before + [link] && link.tx == tx
    ensures var l' := Undo(l, tx, delete);
      f in l'.fees && Links(l', f) == before && HasImpliedDate(l'.fees[f], Base(l.fees[f], Links(l, f)), before)
  {
    var fee, all := l.fees[f], Links(l, f);
    assert GoodHistory(Base(fee, all), fee.amount, all);
    assert all[..|before|] == before && all == before + [link] + [];
    OtherLinksHaveOtherTxs(Base(fee, all), fee.amount, before, link, []);
    UndoneLatest(l, tx, delete, f, before, link);
  }

  lemma ReopeningEarlier(l: Ledger, tx: TxId, delete: bool, f: FeeId, before: seq<Link>, link: Link, after: seq<Link>)
    requires Good(l) && LiveTx(l, tx) && LiveFee(l, f) && after != []
    requires Links(l, f) == before + [link] + after && link.tx == tx
    ensures var l' := Undo(l, tx, delete);
      f in l'.fees && Links(l', f) == before + after && l'.fees[f] == Settled(l.fees[f], before + after)
    ensures var fee, base := l.fees[f], Base(l.fees[f], Links(l, f));
      GoodHistory(base, fee.amount, before + [link] + after) &&
      fee.paidDate == Derived(base, fee.amount, before + [link] + after)
  {
    var fee, all := l.fees[f], Links(l, f);
    assert GoodHistory(Base(fee, all), fee.amount, all);
    OtherLinksHaveOtherTxs(Base(fee, all), fee.amount, before, link, after);
    UndoneFee(l, tx, delete, f);
    RemovingEarlierSettles(l, tx, f, before, link, after);
  }

  lemma SettledWithoutOne(fee: Fee, base: Option<Day>, before: seq<Link>, link: Link, after: seq<Link>)
    requires after != [] && GoodHistory(base, fee.amount, before + [link] + after)
    requires fee.paidDate == Derived(base, fee.amount, before + [link] + after)
    ensures var settled := Settled(fee, before + after);
      && (settled.paidDate == Derived(base, fee.amount, before + after) <==>
            !OutlastsItsDate(fee, before, link, after))
      && (OutlastsItsDate(fee, before, link, after) ==> settled.paidDate == Some(link.date))
  {
    var all, left := before + [link] + after, before + after;
    assert left[|left| - 1] == after[|after| - 1] == all[|all| - 1];
    LatestPaymentTakenOut(before, link, after);
    if OutlastsItsDate(fee, before, link, after) {
      LatestIsTheDate(before, link, after);
    }
    if fee.paidDate.Some? && link.amount > 0 {
      PaidHistoryWithoutPayment(base, fee.amount, before, link, after);
    }
  }

  lemma LatestIsTheDate(before: seq<Link>, link: Link, after: seq<Link>)
    requires link.amount > 0 && (LastPayment(before + after).Some? ==> LastPayment(before + after).value < link.date)
    ensures LastPayment(before + [link] + after) == Some(link.date)
  {
    assert [link][..0] == [];
    LastPaymentOfConcat(before, [link]);
    LastPaymentOfConcat(before + [link], after);
    LastPaymentOfConcat(before, after);
  }

  /**
   * What is left of a fee after that, if it has later links: it is paid just when the last of them is a payment and
   * they reach the amount, and it is overpaid just when the last return was taken back and what it had reversed does
   * not fit together with what was paid since.
   */
  lemma ReopeningMayOverpay(l: Ledger, tx: TxId, delete: bool, f: FeeId, before: seq<Link>, link: Link,
                            after: seq<Link>)
    requires Good(l) && LiveTx(l, tx) && LiveFee(l, f)
    requires Links(l, f) == before + [link] + after && link.tx == tx && after != []
    ensures var l' := Undo(l, tx, delete);
      && f in l'.fees
      && (l'.fees[f].paidDate.Some? <==>
            after[|after| - 1].amount > 0 && SinceReturn(before + after) >= l.fees[f].amount)
      && (SinceReturn(before + after) > l.fees[f].amount <==>
            link.amount < 0 && !HasReturn(after) && SinceReturn(before) + SinceReturn(after) > l.fees[f].amount)
  {
    var fee, all := l.fees[f], Links(l, f);
    var base := Base(fee, all);
    assert GoodHistory(base, fee.amount, all);
    OtherLinksHaveOtherTxs(base, fee.amount, before, link, after);
    TakingBackAReturn(base, fee.amount, before, link, after);
    UndoneFee(l, tx, delete, f);
    RemovingEarlierSettles(l, tx, f, before, link, after);
    var left := before + after;
    assert left[|left| - 1] == after[|after| - 1] == all[|all| - 1];
    if all[|all| - 1].amount > 0 {
      LastPaymentIsSome(left);
    }
  }

  lemma LastPaymentIsSome(links: seq<Link>)
    requires links != [] && links[|links| - 1].amount > 0
    ensures LastPayment(links).Some?
  {
  }

  /** Reopening first any link of a fee and then its last one gives the fee the paid date from before the last one. */
  lemma ReopenedTwice(l: Ledger, f: FeeId, before: seq<Link>, link: Link, mid: seq<Link>, last: Link)
    requires Good(l) && LiveFee(l, f) && LiveTx(l, link.tx) && LiveTx(l, last.tx)
    requires Links(l, f) == before + [link] + (mid + [last])
    ensures var l' := Undo(l, link.tx, false);
      LiveTx(l', last.tx) &&
      var l'' := Undo(l', last.tx, false);
      && f in l''.fees && l''.fees[f].amount == l.fees[f].amount
      && Links(l'', f) == before + mid
      && l''.fees[f].paidDate == last.prior
      && last.prior == Derived(Base(l.fees[f], Links(l, f)), l.fees[f].amount, before + [link] + mid)
  {
    var fee, all, after := l.fees[f], Links(l, f), mid + [last];
    var base := Base(fee, all);
    assert GoodHistory(base, fee.amount, all);
    OtherLinksHaveOtherTxs(base, fee.amount, before, link, after);
    RemovingEarlierSettles(l, link.tx, f, before, link, after);
    UndoneFee(l, link.tx, false, f);
    var l' := Undo(l, link.tx, false);

    LastIsNotLinked(base, fee.amount, before, link, mid, last);
    assert before + after == (before + mid) + [last];
    UndoneLatest(l', last.tx, false, f, before + mid, last);
  }

  lemma LastIsNotLinked(base: Option<Day>, amount: int, before: seq<Link>, link: Link, mid: seq<Link>, last: Link)
    requires GoodHistory(base, amount, before + [link] + (mid + [last]))
    ensures last.prior == Derived(base, amount, before + [link] + mid) && last.tx != link.tx
    ensures !Linked(before + mid, last.tx)
  {
    var history := before + [link] + mid;
    assert before + [link] + (mid + [last]) == history + [last];
    LinksHaveOtherTxsThanLast(base, amount, history, last);
    assert (history + [last])[..|history|] == history;
    assert history[|before|] == link;
    forall i | 0 <= i < |before + mid| ensures (before + mid)[i].tx != last.tx {
      assert (before + mid)[i] == history[if i < |before| then i else i + 1];
    }
  }

  /** Taking a payment out of a history in which the fee was not paid at the end leaves it unpaid. */
  lemma UnpaidStaysUnpaid(base: Option<Day>, amount: int, before: seq<Link>, payment: Link, mid: seq<Link>)
    requires GoodHistory(base, amount, before + [payment] + mid) && payment.amount > 0
    ensures Derived(base, amount, before + [payment] + mid).None? ==> Derived(base, amount, before + mid).None?
  {
    PaymentIsMadeWhenOpen(base, amount, before, payment, mid);
    SinceReturnOfConcat(before + [payment], mid);
    SinceReturnOfConcat(before, mid);
    assert (before + [payment])[..|before|] == before;
    if mid == [] {
      assert before + mid == before;
    } else {
      assert (before + mid)[|before| + |mid| - 1] == mid[|mid| - 1];
      if Derived(base, amount, before + [payment] + mid).None? && mid[|mid| - 1].amount > 0 {
        LastPaymentIsSome(before + [payment] + mid);
      }
    }
  }

  /** A payment is only made on a fee that is not paid. */
  lemma PaymentIsMadeWhenOpen(base: Option<Day>, amount: int, before: seq<Link>, payment: Link, mid: seq<Link>)
    requires GoodHistory(base, amount, before + [payment] + mid) && payment.amount > 0
    ensures Derived(base, amount, before).None? && GoodHistory(base, amount, before + [payment])
  {
    var all := before + [payment] + mid;
    GoodPrefix(base, amount, all, |before| + 1);
    assert all[..|before| + 1] == before + [payment];
    assert (before + [payment])[..|before|] == before;
  }

  /**
   * Reopening a payment before the return that reversed it, and then the return. The fee has the paid date that the
   * remaining links imply just when it was not paid when the return came, or when another return lies between the two
   * and the payment was not the latest one.
   */
  lemma PaymentReopenedBeforeItsReturn(l: Ledger, f: FeeId, before: seq<Link>, payment: Link, mid: seq<Link>,
                                       return_: Link)
    requires Good(l) && LiveFee(l, f) && LiveTx(l, payment.tx) && LiveTx(l, return_.tx)
    requires Links(l, f) == before + [payment] + (mid + [return_])
    requires payment.amount > 0 && return_.amount < 0
    ensures var l' := Undo(l, payment.tx, false);
      LiveTx(l', return_.tx) &&
      var l'' := Undo(l', return_.tx, false);
      && f in l''.fees && Links(l'', f) == before + mid && l''.fees[f].paidDate == return_.prior
      && (HasImpliedDate(l''.fees[f], Base(l.fees[f], Links(l, f)), before + mid) <==>
            || return_.prior.None?
            || (HasReturn(mid) && LastPayment(before + [payment] + mid) == LastPayment(before + mid)))
  {
    var fee, all := l.fees[f], Links(l, f);
    var base := Base(fee, all);
    var history := before + [payment] + mid;
    ReopenedTwice(l, f, before, payment, mid, return_);
    assert all == history + [return_];
    LinksHaveOtherTxsThanLast(base, fee.amount, history, return_);
    UnpaidStaysUnpaid(base, fee.amount, before, payment, mid);
    PaymentIsMadeWhenOpen(base, fee.amount, before, payment, mid);
    if return_.prior.Some? {
      PaidHistoryWithoutPayment(base, fee.amount, before, payment, mid);
    }
  }

  /** A paid history stays paid without one of its payments just when a return lies behind that payment. */
  lemma PaidHistoryWithoutPayment(base: Option<Day>, amount: int, before: seq<Link>, payment: Link, mid: seq<Link>)
    requires GoodHistory(base, amount, before + [payment] + mid) && payment.amount > 0
    requires Derived(base, amount, before + [payment] + mid).Some?
    ensures Derived(base, amount, before + mid) == if HasReturn(mid) then LastPayment(before + mid) else None
  {
    var history := before + [payment] + mid;
    PaymentIsMadeWhenOpen(base, amount, before, payment, mid);
    GoodHistoryIsBounded(base, amount, history);
    SinceReturnOfConcat(before + [payment], mid);
    SinceReturnOfConcat(before, mid);
    assert (before + [payment])[..|before|] == before;
    if mid == [] {
      assert before + mid == before;
    } else {
      assert (before + mid)[|before| + |mid| - 1] == mid[|mid| - 1] == history[|history| - 1];
    }
  }

  lemma LinksHaveOtherTxsThanLast(base: Option<Day>, amount: int, before: seq<Link>, last: Link)
    requires GoodHistory(base, amount, before + [last])
    ensures GoodHistory(base, amount, before) && !Linked(before, last.tx)
  {
    assert (before + [last])[..|before|] == before;
  }

  // ---------- Ledgers in which this happens ----------

  predicate IsBankEntry(l: Ledger, tx: TxId, amount: int, day: Day, isReturn: bool) {
    && tx in l.txs && l.txs[tx] == Tx(amount, day, !isReturn, true, isReturn, false, false)
    && !HasPayments(l, tx)
  }

  /** A transaction of which everything is assigned to one fee. */
  function ToOneFee(tx: TxId, f: FeeId, amount: int): Confirmation {
    Confirmation(tx, [Allocation(f, amount)])
  }

  predicate IsLiveFee(l: Ledger, f: FeeId, amount: int, paidDate: Option<Day>, links: seq<Link>) {
    f in l.fees && l.fees[f] == Fee(amount, paidDate, false, false, false) && Links(l, f) == links
  }

  /** The paid date after one more link. */
  function PaidDateAfter(amount: int, paidDate: Option<Day>, links: seq<Link>, link: Link): Option<Day> {
    if link.amount < 0 || SinceReturn(links) + link.amount < amount then None
    else if paidDate.Some? then paidDate
    else if LastPayment(links).Some? && LastPayment(links).value > link.date then LastPayment(links)
    else Some(link.date)
  }

  /** Assigning a bank entry to one fee appends its link, and leaves the other bank entries unassigned. */
  lemma AssignedToOneFee(l: Ledger, f: FeeId, fee: int, paidDate: Option<Day>, links: seq<Link>,
                         tx: TxId, amount: int, day: Day, isReturn: bool)
    requires IsLiveFee(l, f, fee, paidDate, links) && IsBankEntry(l, tx, amount, day, isReturn) && amount > 0
    requires if isReturn then amount <= PaidCents(l.fees[f], links)
             else paidDate.None? && amount <= fee - SinceReturn(links)
    ensures Confirmable(l, tx, ToOneFee(tx, f, amount).allocations)
    ensures var l', link := Confirmed(l, tx, ToOneFee(tx, f, amount).allocations),
                            Link(tx, if isReturn then -amount else amount, paidDate, day);
      && IsLiveFee(l', f, fee, PaidDateAfter(fee, paidDate, links, link), links + [link])
      && LiveTx(l', tx)
      && forall other: TxId, m, d, r ::
           other != tx && IsBankEntry(l, other, m, d, r) ==> IsBankEntry(l', other, m, d, r)
  {
    var allocations := ToOneFee(tx, f, amount).allocations;
    assert allocations[..0] == [];
    assert Total(allocations) == amount;
    assert Assignable(l, allocations[0], isReturn);
    ConfirmedFee(l, tx, allocations, f);
    var link := NewLink(l, tx, allocations[0]);
    assert allocations[0].fee == f && (links + [link])[..|links|] == links;
    forall other: TxId | other != tx
      ensures HasPayments(Confirmed(l, tx, allocations), other) ==> HasPayments(l, other)
    {
      OthersKeepPayments(l, tx, allocations, other);
    }
  }

  lemma LinkIsLive(l: Ledger, f: FeeId, k: nat)
    requires k < |Links(l, f)|
    ensures LiveTx(l, Links(l, f)[k].tx)
  {
    var i := LinkComesFromPayment(l, f, |l.payments|, k);
  }

  /** Three confirmations that each assign a whole bank entry to the fee. */
  function ThreeTimes(f: FeeId, first: TxId, a: int, second: TxId, b: int, third: TxId, c: int): seq<Confirmation> {
    [ToOneFee(first, f, a), ToOneFee(second, f, b), ToOneFee(third, f, c)]
  }

  lemma RunThreeTimes(l: Ledger, run: seq<Confirmation>)
    requires |run| == 3 && Good(l) && Confirmable(l, run[0].tx, run[0].allocations)
    requires var l1 := Confirmed(l, run[0].tx, run[0].allocations);
      && Confirmable(l1, run[1].tx, run[1].allocations)
      && Confirmable(Confirmed(l1, run[1].tx, run[1].allocations), run[2].tx, run[2].allocations)
    ensures var l1 := Confirmed(l, run[0].tx, run[0].allocations);
      var l2 := Confirmed(l1, run[1].tx, run[1].allocations);
      CanRun(l, run) && AfterRun(l, run) == Confirmed(l2, run[2].tx, run[2].allocations) && Good(AfterRun(l, run))
  {
    var l1 := Confirmed(l, run[0].tx, run[0].allocations);
    var l2 := Confirmed(l1, run[1].tx, run[1].allocations);
    var l3 := Confirmed(l2, run[2].tx, run[2].allocations);
    assert run[1..][1..] == run[2..] && run[2..][0] == run[2] && run[2..][1..] == [];
    assert CanRun(l3, []) && AfterRun(l3, []) == l3;
    assert CanRun(l2, run[2..]) && AfterRun(l2, run[2..]) == AfterRun(l3, []);
    assert CanRun(l1, run[1..]) && AfterRun(l1, run[1..]) == AfterRun(l2, run[2..]);
    ConfirmKeepsGood(l, run[0].tx, run[0].allocations);
    ConfirmKeepsGood(l1, run[1].tx, run[1].allocations);
    ConfirmKeepsGood(l2, run[2].tx, run[2].allocations);
  }

  lemma OneMoreLink(links: seq<Link>, link: Link)
    ensures SinceReturn(links + [link]) == if link.amount < 0 then 0 else SinceReturn(links) + link.amount
    ensures LastPayment(links + [link]) ==
            if link.amount <= 0 || (LastPayment(links).Some? && LastPayment(links).value > link.date)
            then LastPayment(links)
            else Some(link.date)
  {
    assert (links + [link])[..|links|] == links;
  }

  lemma PaymentReturnPayment(l: Ledger, f: FeeId, first: TxId, return_: TxId, second: TxId)
    requires l.payments == [] && IsLiveFee(l, f, 100, None, [])
    requires first != return_ && first != second && return_ != second
    requires IsBankEntry(l, first, 100, 20, false) && IsBankEntry(l, return_, 100, 30, true)
    requires IsBankEntry(l, second, 100, 10, false)
    ensures var run := ThreeTimes(f, first, 100, return_, 100, second, 100);
      && CanRun(l, run) && Good(AfterRun(l, run))
      && IsLiveFee(AfterRun(l, run), f, 100, Some(20),
                   [] + [Link(first, 100, None, 20)] + [Link(return_, -100, Some(20), 30)]
                      + [Link(second, 100, None, 10)])
  {
    var run := ThreeTimes(f, first, 100, return_, 100, second, 100);
    var a, b, c := Link(first, 100, None, 20), Link(return_, -100, Some(20), 30), Link(second, 100, None, 10);
    AssignedToOneFee(l, f, 100, None, [], first, 100, 20, false);
    var l1 := Confirmed(l, first, run[0].allocations);
    OneMoreLink([], a);
    AssignedToOneFee(l1, f, 100, Some(20), [] + [a], return_, 100, 30, true);
    var l2 := Confirmed(l1, return_, run[1].allocations);
    OneMoreLink([] + [a], b);
    AssignedToOneFee(l2, f, 100, None, [] + [a] + [b], second, 100, 10, false);
    UnassignedIsGood(l);
    RunThreeTimes(l, run);
  }

  /**
   * A payment of day 20, its return, and a payment of day 10, all of the whole fee. Reopening the first payment leaves
   * the fee paid on day 20.
   */
  lemma FeeKeepsDateOfReopenedPayment(l: Ledger, f: FeeId, first: TxId, return_: TxId, second: TxId)
    requires l.payments == [] && IsLiveFee(l, f, 100, None, [])
    requires first != return_ && first != second && return_ != second
    requires IsBankEntry(l, first, 100, 20, false) && IsBankEntry(l, return_, 100, 30, true)
    requires IsBankEntry(l, second, 100, 10, false)
    ensures var run := ThreeTimes(f, first, 100, return_, 100, second, 100);
      CanRun(l, run) &&
      var l' := AfterRun(l, run);
      && Good(l') && LiveTx(l', first)
      && var l'' := Undo(l', first, false);
         f in l''.fees && l''.fees[f].paidDate == Some(20) && LastPayment(Links(l'', f)) == Some(10)
  {
    var run := ThreeTimes(f, first, 100, return_, 100, second, 100);
    var a, b, c := Link(first, 100, None, 20), Link(return_, -100, Some(20), 30), Link(second, 100, None, 10);
    PaymentReturnPayment(l, f, first, return_, second);
    assert ([] + [a] + [b] + [c])[0] == a;
    LinkIsLive(AfterRun(l, run), f, 0);
    KeptDate(AfterRun(l, run), f, a, b, c);
  }

  lemma KeptDate(l: Ledger, f: FeeId, a: Link, b: Link, c: Link)
    requires Good(l) && IsLiveFee(l, f, 100, Some(20), [] + [a] + [b] + [c]) && LiveTx(l, a.tx)
    requires a.amount == c.amount == 100 && b.amount == -100 && c.date == 10
    ensures var l' := Undo(l, a.tx, false);
      f in l'.fees && l'.fees[f].paidDate == Some(20) && LastPayment(Links(l', f)) == Some(10)
  {
    assert [] + [a] + [b] + [c] == [] + [a] + [b, c];
    var base := Base(l.fees[f], Links(l, f));
    assert GoodHistory(base, 100, Links(l, f));
    OtherLinksHaveOtherTxs(base, 100, [], a, [b, c]);
    RemovingEarlierSettles(l, a.tx, f, [], a, [b, c]);
    UndoneFee(l, a.tx, false, f);
    assert [] + [b, c] == [b] + [c] && [b] == [] + [b];
    OneMoreLink([], b);
    OneMoreLink([b], c);
    assert ([b] + [c])[1] == c;
  }

  /** A payment of 60, one of 40 that completes the fee, and the return of both. */
  lemma PaymentPaymentReturn(l: Ledger, f: FeeId, first: TxId, second: TxId, return_: TxId)
    requires l.payments == [] && IsLiveFee(l, f, 100, None, [])
    requires first != return_ && first != second && return_ != second
    requires IsBankEntry(l, first, 60, 1, false) && IsBankEntry(l, second, 40, 2, false)
    requires IsBankEntry(l, return_, 100, 3, true)
    ensures var run := ThreeTimes(f, first, 60, second, 40, return_, 100);
      && CanRun(l, run) && Good(AfterRun(l, run))
      && IsLiveFee(AfterRun(l, run), f, 100, None,
                   [] + [Link(first, 60, None, 1)] + [Link(second, 40, None, 2)] + [Link(return_, -100, Some(2), 3)])
  {
    var run := ThreeTimes(f, first, 60, second, 40, return_, 100);
    var a, b, c := Link(first, 60, None, 1), Link(second, 40, None, 2), Link(return_, -100, Some(2), 3);
    AssignedToOneFee(l, f, 100, None, [], first, 60, 1, false);
    var l1 := Confirmed(l, first, run[0].allocations);
    OneMoreLink([], a);
    AssignedToOneFee(l1, f, 100, None, [] + [a], second, 40, 2, false);
    var l2 := Confirmed(l1, second, run[1].allocations);
    OneMoreLink([] + [a], b);
    AssignedToOneFee(l2, f, 100, Some(2), [] + [a] + [b], return_, 100, 3, true);
    UnassignedIsGood(l);
    RunThreeTimes(l, run);
  }

  /** Reopening its first payment and then the return leaves the fee paid although 40 of 100 are assigned. */
  lemma FeeStaysPaidWithoutItsPayment(l: Ledger, f: FeeId, first: TxId, second: TxId, return_: TxId)
    requires l.payments == [] && IsLiveFee(l, f, 100, None, [])
    requires first != return_ && first != second && return_ != second
    requires IsBankEntry(l, first, 60, 1, false) && IsBankEntry(l, second, 40, 2, false)
    requires IsBankEntry(l, return_, 100, 3, true)
    ensures var run := ThreeTimes(f, first, 60, second, 40, return_, 100);
      CanRun(l, run) &&
      var l' := AfterRun(l, run);
      && Good(l') && LiveTx(l', first)
      && var l'' := Undo(l', first, false);
         LiveTx(l'', return_) &&
         var end := Undo(l'', return_, false);
         f in end.fees && end.fees[f].paidDate == Some(2) && SinceReturn(Links(end, f)) == 40
  {
    var run := ThreeTimes(f, first, 60, second, 40, return_, 100);
    var a, b, c := Link(first, 60, None, 1), Link(second, 40, None, 2), Link(return_, -100, Some(2), 3);
    PaymentPaymentReturn(l, f, first, second, return_);
    var l' := AfterRun(l, run);
    assert ([] + [a] + [b] + [c])[0] == a && ([] + [a] + [b] + [c])[2] == c;
    LinkIsLive(l', f, 0);
    LinkIsLive(l', f, 2);
    assert [] + [a] + [b] + [c] == [] + [a] + ([b] + [c]);
    PaymentReopenedBeforeItsReturn(l', f, [], a, [b], c);
    assert [] + [b] == [b];
    OneMoreLink([], b);
  }
}
