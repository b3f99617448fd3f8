/** The tables of the ledger and the transactions that change them in place. */
module LedgerStore {
  import opened Wrappers
  import opened Ledger

  class Store {
    var fees: map<FeeId, Fee>
    var txs: map<TxId, Tx>
    var payments: seq<Payment>

    constructor (fees: map<FeeId, Fee>, txs: map<TxId, Tx>)
      ensures State() == Ledger(fees, txs, []) && Valid()
    {
      this.fees, this.txs, payments := fees, txs, [];
    }

    function State(): Ledger
      reads this
    {
      Ledger(fees, txs, payments)
    }

    /** No assignment is of zero cents. */
    ghost predicate Valid()
      reads this
    {
      forall i | 0 <= i < |payments| :: payments[i].amount != 0
    }

    // ---------- Settling ----------

    /** The sum of the payments with an id after that of the last return. */
    method PaidSinceReturn(f: FeeId) returns (sum: int)
      ensures sum == SinceReturn(Links(State(), f))
    {
      var lastReturn: int := -1;
      for i := 0 to |payments|
        invariant -1 <= lastReturn < i
        invariant lastReturn >= 0 ==> IsLink(State(), f, lastReturn) && payments[lastReturn].amount < 0
        invariant forall j | lastReturn < j < i && IsLink(State(), f, j) :: payments[j].amount >= 0
      {
        if IsLink(State(), f, i) && payments[i].amount < 0 {
          lastReturn := i;
        }
      }
      sum := 0;
      for i := lastReturn + 1 to |payments|
        invariant sum == SinceReturn(LinksUpTo(State(), f, i))
      {
        if IsLink(State(), f, i) {
          var links := LinksUpTo(State(), f, i + 1);
          assert links[..|links| - 1] == LinksUpTo(State(), f, i);
          if payments[i].amount > 0 {
            sum := sum + payments[i].amount;
          }
        }
      }
    }

    method LastPaymentDate(f: FeeId) returns (date: Option<Day>)
      ensures date == LastPayment(Links(State(), f))
    {
      date := None;
      for i := 0 to |payments|
        invariant date == LastPayment(LinksUpTo(State(), f, i))
      {
        if IsLink(State(), f, i) {
          var links := LinksUpTo(State(), f, i + 1);
          assert links[..|links| - 1] == LinksUpTo(State(), f, i);
          var d := txs[payments[i].tx].date;
          if payments[i].amount > 0 && (date.None? || date.value <= d) {
            date := Some(d);
          }
        }
      }
    }

    method LastLink(f: FeeId) returns (last: Option<Payment>)
      ensures var links := Links(State(), f);
        if links == [] then last.None? else last.Some? && last.value.amount == links[|links| - 1].amount
      ensures last.Some? ==> last.value in payments
    {
      last := None;
      for i := 0 to |payments|
        invariant var links := LinksUpTo(State(), f, i);
          if links == [] then last.None? else last.Some? && last.value.amount == links[|links| - 1].amount
        invariant last.Some? ==> last.value in payments
      {
        if IsLink(State(), f, i) {
          last := Some(payments[i]);
        }
      }
    }

    method SettleFee(f: FeeId)
      requires Valid()
      modifies this`fees
      ensures fees == if LiveFee(old(State()), f) then old(fees)[f := Settled(old(fees)[f], Links(old(State()), f))]
                      else old(fees)
    {
      if f !in fees || fees[f].deleted {
        return;
      }
      var linked := PaidSinceReturn(f);
      var lastPayment := LastPaymentDate(f);
      var lastLink := LastLink(f);
      var paid: Option<Day>;
      if lastLink.None? {
        return;
      } else if lastLink.value.amount < 0 || linked < fees[f].amount {
        paid := None;
      } else if fees[f].paidDate.Some? {
        return;
      } else {
        // The last link is a payment, so there is a date and the current time is never taken instead.
        assert lastPayment.Some?;
        paid := lastPayment;
      }
      fees := fees[f := fees[f].(paidDate := paid)];
    }

    // ---------- Confirming ----------

    method ConfirmReconciliation(tx: TxId, allocations: seq<Allocation>) returns (r: Result<(), Error>)
      requires Valid()
      modifies this
      ensures Valid()
      ensures r.Ok? <==> Confirmable(old(State()), tx, allocations)
      ensures r.Ok? ==> State() == Confirmed(old(State()), tx, allocations)
      ensures r.Err? ==> State() == old(State())
      ensures r.Err? ==> IsConfirmError(State(), tx, allocations, r.error)
    {
      ghost var l := State();
      if |allocations| == 0 {
        return Err(NoAllocations);
      }
      if tx !in txs || txs[tx].deleted || !txs[tx].imported {
        return Err(NotFound);
      }
      if HasPayments(State(), tx) {
        return Err(AlreadyReconciled);
      }
      var isReturn := txs[tx].isReturn;
      if !txs[tx].income && !isReturn {
        return Err(NotReconcilable);
      }
      var unsound, total := CheckAllocations(allocations);
      if unsound < |allocations| {
        return Err(NotAssignable({allocations[unsound].fee}));
      }
      if total > txs[tx].amount {
        return Err(AllocationExceeds);
      }
      var invalid := {};
      for i := 0 to |allocations|
        invariant State() == l && Valid()
        invariant invalid == Unassignable(l, allocations[..i], isReturn)
      {
        assert allocations[..i + 1] == allocations[..i] + [allocations[i]];
        UnassignableGrows(l, allocations[..i], allocations[i], isReturn);
        var f := allocations[i].fee;
        if f !in fees || fees[f].deleted || fees[f].memberDeleted {
          invalid := invalid + {f};
        } else {
          var since := PaidSinceReturn(f);
          var paid := if fees[f].paidDate.Some? then fees[f].amount else since;
          var open := fees[f].paidDate.None? && !fees[f].inCollection && fees[f].amount - paid > 0;
          if isReturn && (paid <= 0 || allocations[i].amount > paid) {
            invalid := invalid + {f};
          } else if !isReturn && (!open || allocations[i].amount > fees[f].amount - paid) {
            invalid := invalid + {f};
          }
        }
      }
      assert allocations[..|allocations|] == allocations;
      if invalid != {} {
        ghost var a :| a in allocations && !Assignable(l, a, isReturn);
        return Err(NotAssignable(invalid));
      }
      forall a | a in allocations ensures Assignable(l, a, isReturn) {
        assert a.fee !in Unassignable(l, allocations, isReturn);
      }
      Assign(tx, allocations);
      SettleAll(l, tx, allocations);
      return Ok(());
    }

    /** The first allocation that is not positive or repeats a fee, or else their sum. */
    method CheckAllocations(allocations: seq<Allocation>) returns (unsound: nat, total: int)
      ensures unsound <= |allocations|
      ensures if unsound < |allocations| then IsFirstUnsound(allocations, unsound)
              else Sound(allocations) && total == Total(allocations)
    {
      total := 0;
      var seen := {};
      for i := 0 to |allocations|
        invariant Sound(allocations[..i]) && total == Total(allocations[..i])
        invariant forall f :: f in seen <==> exists j :: 0 <= j < i && allocations[j].fee == f
      {
        assert allocations[..i + 1][..i] == allocations[..i];
        var a := allocations[i];
        if a.amount <= 0 || a.fee in seen {
          return i, total;
        }
        seen := seen + {a.fee};
        total := total + a.amount;
      }
      assert allocations[..|allocations|] == allocations;
      return |allocations|, total;
    }

    method Assign(tx: TxId, allocations: seq<Allocation>)
      requires Valid() && Confirmable(State(), tx, allocations)
      modifies this`payments, this`txs
      ensures Valid() && State() == Assigned(old(State()), tx, allocations)
    {
      ghost var l, l' := State(), Assigned(State(), tx, allocations);
      for i := 0 to |allocations|
        invariant payments == l'.payments[..|l.payments| + i] && txs == l.txs && Valid()
      {
        var a := allocations[i];
        assert a in allocations && Assignable(l, a, l.txs[tx].isReturn);
        var amount := if txs[tx].isReturn then -a.amount else a.amount;
        payments := payments + [Payment(a.fee, tx, amount, fees[a.fee].paidDate, false)];
      }
      if txs[tx].dismissed {
        txs := txs[tx := txs[tx].(dismissed := false)];
      }
      assert txs == l'.txs;
    }

    method SettleAll(ghost l: Ledger, tx: TxId, allocations: seq<Allocation>)
      requires Valid() && Confirmable(l, tx, allocations) && State() == Assigned(l, tx, allocations)
      modifies this`fees
      ensures State() == Confirmed(l, tx, allocations)
    {
      for i := 0 to |allocations|
        invariant fees.Keys == l.fees.Keys
        invariant forall f | f in l.fees ::
          fees[f] == if Allocates(allocations[..i], f) then Settled(l.fees[f], Links(Assigned(l, tx, allocations), f))
                     else l.fees[f]
      {
        var f := allocations[i].fee;
        assert allocations[i] in allocations;
        forall g {
          AllocatesOneMore(allocations, i, g);
        }
        assert !Allocates(allocations[..i], f);
        SameLinks(State(), Assigned(l, tx, allocations), f, |payments|);
        SettleFee(f);
      }
      assert allocations[..|allocations|] == allocations;
    }

    // ---------- Undoing ----------

    method ReopenReconciliation(tx: TxId) returns (r: Result<(), Error>)
      requires Valid()
      modifies this
      ensures Valid()
      ensures r == if IsEntry(old(State()), tx) then Ok(()) else Err(NotFound)
      ensures State() == if r.Ok? then Reopened(old(State()), tx) else old(State())
    {
      if tx !in txs || txs[tx].deleted || !txs[tx].imported {
        return Err(NotFound);
      }
      txs := txs[tx := txs[tx].(dismissed := false)];
      RemovePayments(tx);
      return Ok(());
    }

    method DeleteTransaction(tx: TxId) returns (r: Result<(), Error>)
      requires Valid()
      modifies this
      ensures Valid()
      ensures r == if LiveTx(old(State()), tx) then Ok(()) else Err(NotFound)
      ensures State() == if r.Ok? then WithoutTx(old(State()), tx) else old(State())
    {
      if tx !in txs || txs[tx].deleted {
        return Err(NotFound);
      }
      txs := txs[tx := txs[tx].(deleted := true)];
      RemovePayments(tx);
      return Ok(());
    }

    method RemovePayments(tx: TxId)
      requires Valid()
      modifies this`fees, this`payments
      ensures Valid() && State() == Removed(old(State()), tx)
    {
      ghost var l := State();
      var order, first := FeesOf(tx);
      payments := seq(|payments|, i requires 0 <= i < |payments| reads this =>
                        if payments[i].tx == tx && !payments[i].deleted then payments[i].(deleted := true)
                        else payments[i]);
      assert payments == Tombstoned(l, tx).payments;
      RestoreFees(l, tx, order, first);
      forall f | f in l.fees ensures fees[f] == Restored(l, tx, f) {
        FirstRemovedIsFirst(l, tx, f, |l.payments|);
      }
      assert fees == Removed(l, tx).fees;
    }

    /** The fees the transaction is assigned to, each with the id of the first of these assignments. */
    method FeesOf(tx: TxId) returns (order: seq<FeeId>, first: map<FeeId, nat>)
      ensures forall f :: f in first <==> f in order
      ensures forall f :: FirstRemoved(State(), tx, f, |payments|) == if f in first then Some(first[f]) else None
      ensures forall f | f in first :: first[f] < |payments|
      ensures forall j, k | 0 <= j < k < |order| :: order[j] != order[k]
    {
      order, first := [], map[];
      for i := 0 to |payments|
        invariant forall f :: f in first <==> f in order
        invariant forall f :: FirstRemoved(State(), tx, f, i) == if f in first then Some(first[f]) else None
        invariant forall f | f in first :: first[f] < i
        invariant forall j, k | 0 <= j < k < |order| :: order[j] != order[k]
      {
        if payments[i].tx == tx && !payments[i].deleted && payments[i].fee !in first {
          first := first[payments[i].fee := i];
          order := order + [payments[i].fee];
        }
      }
    }

    method RestoreFees(ghost l: Ledger, tx: TxId, order: seq<FeeId>, first: map<FeeId, nat>)
      requires Valid() && State() == Tombstoned(l, tx)
      requires forall f | f in order ::
        f in first && first[f] < |l.payments| && FirstRemoved(l, tx, f, |l.payments|) == Some(first[f])
      requires forall j, k | 0 <= j < k < |order| :: order[j] != order[k]
      modifies this`fees
      ensures fees.Keys == l.fees.Keys
      ensures forall f | f in l.fees :: fees[f] == if f in order then Restored(l, tx, f) else l.fees[f]
    {
      ghost var l' := State();
      for i := 0 to |order|
        invariant fees.Keys == l.fees.Keys
        invariant forall f | f in l.fees :: fees[f] == if f in order[..i] then Restored(l, tx, f) else l.fees[f]
      {
        var f := order[i];
        assert order[..i + 1] == order[..i] + [f] && f !in order[..i];
        SameLinks(State(), l', f, |payments|);
        SameLinks(State(), l', f, first[f] + 1);
        assert payments[first[f]].prior == l.payments[first[f]].prior;
        var later := CountLater(f, first[f]);
        if later > 0 {
          SettleFee(f);
        } else if f in fees && !fees[f].deleted {
          fees := fees[f := fees[f].(paidDate := payments[first[f]].prior)];
        }
      }
      assert order[..|order|] == order;
    }

    /** How many links of the fee come after the payment with id `first`. */
    method CountLater(f: FeeId, first: nat) returns (later: int)
      requires first < |payments|
      ensures later == LaterLinks(State(), f, first)
    {
      later := 0;
      for i := first + 1 to |payments|
        invariant later == |LinksUpTo(State(), f, i)| - |LinksUpTo(State(), f, first + 1)|
      {
        if IsLink(State(), f, i) {
          later := later + 1;
        }
      }
    }

    method DismissReconciliation(tx: TxId) returns (r: Result<(), Error>)
      modifies this`txs
      ensures r == if !IsEntry(old(State()), tx) then Err(NotFound)
                   else if HasPayments(old(State()), tx) then Err(AlreadyReconciled)
                   else Ok(())
      ensures State() == if r.Ok? then old(State()).(txs := old(txs)[tx := old(txs)[tx].(dismissed := true)])
                         else old(State())
    {
      if tx !in txs || txs[tx].deleted || !txs[tx].imported {
        return Err(NotFound);
      }
      if HasPayments(State(), tx) {
        return Err(AlreadyReconciled);
      }
      txs := txs[tx := txs[tx].(dismissed := true)];
      return Ok(());
    }

    method DeleteFee(f: FeeId) returns (r: Result<(), Error>)
      requires Valid()
      modifies this`fees, this`payments
      ensures Valid()
      ensures r == if LiveFee(old(State()), f) then Ok(()) else Err(NotFound)
      ensures State() == if r.Ok? then WithoutFee(old(State()), f) else old(State())
    {
      if f !in fees || fees[f].deleted {
        return Err(NotFound);
      }
      fees := fees[f := fees[f].(deleted := true)];
      payments := seq(|payments|, i requires 0 <= i < |payments| reads this =>
                        if payments[i].fee == f && !payments[i].deleted then payments[i].(deleted := true)
                        else payments[i]);
      assert payments == WithoutFee(old(State()), f).payments;
      return Ok(());
    }
  }

  lemma AllocatesOneMore(allocations: seq<Allocation>, i: nat, f: FeeId)
    requires i < |allocations|
    ensures Allocates(allocations[..i + 1], f) <==> Allocates(allocations[..i], f) || allocations[i].fee == f
  {
    assert allocations[..i + 1][i] == allocations[i];
    assert forall j | 0 <= j < i :: allocations[..i + 1][j] == allocations[..i][j];
  }

  lemma UnassignableGrows(l: Ledger, allocations: seq<Allocation>, a: Allocation, isReturn: bool)
    ensures Unassignable(l, allocations + [a], isReturn) ==
            Unassignable(l, allocations, isReturn) + if Assignable(l, a, isReturn) then {} else {a.fee}
  {
  }

  /** Which error a rejected confirmation reports, in the order of the checks. */
  predicate IsConfirmError(l: Ledger, tx: TxId, allocations: seq<Allocation>, e: Error) {
    if allocations == [] then e == NoAllocations
    else if !IsEntry(l, tx) then e == NotFound
    else if HasPayments(l, tx) then e == AlreadyReconciled
    else if !l.txs[tx].income && !l.txs[tx].isReturn then e == NotReconcilable
    else if !Sound(allocations) then
      exists i :: 0 <= i < |allocations| && IsFirstUnsound(allocations, i) && e == NotAssignable({allocations[i].fee})
    else if Total(allocations) > l.txs[tx].amount then e == AllocationExceeds
    else e == NotAssignable(Unassignable(l, allocations, l.txs[tx].isReturn))
  }
}
