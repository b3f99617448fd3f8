/** The tables of fees, charges and billing runs, and the transactions that change them in place. */
module BillingStore {
  import opened Wrappers
  import opened Fees
  import opened Billing
  import opened BillingRuns

  datatype Error = FeeRunEmpty | NotFound | InCollectionError

  function ChargedAmong(b: Books, m: MemberId, ids: set<FeeId>): set<Period> {
    set f | f in ids && f in b.charges && IsCharged(b, f) && b.charges[f].member == m :: b.charges[f].period
  }

  lemma ChargedAmongOneMore(b: Books, m: MemberId, ids: set<FeeId>, f: FeeId)
    requires f in b.charges
    ensures ChargedAmong(b, m, ids + {f}) ==
      ChargedAmong(b, m, ids) + if IsCharged(b, f) && b.charges[f].member == m then {b.charges[f].period} else {}
  {
    forall p | p in ChargedAmong(b, m, ids) ensures p in ChargedAmong(b, m, ids + {f}) {
      var g :| g in ids && g in b.charges && IsCharged(b, g) && b.charges[g].member == m && b.charges[g].period == p;
      assert g in ids + {f};
    }
    if IsCharged(b, f) && b.charges[f].member == m {
      assert f in ids + {f};
    }
  }

  lemma RemoveOneMore(b: Books, gone: set<FeeId>, f: FeeId)
    ensures WithoutFees(b, gone + {f}) ==
      var b' := WithoutFees(b, gone);
      b'.(fees := if f in b'.fees then b'.fees[f := b'.fees[f].(deleted := true)] else b'.fees,
          charges := if f in b'.charges then b'.charges[f := b'.charges[f].(deleted := true)] else b'.charges)
  {
  }

  class Store {
    var fees: map<FeeId, FeeRow>
    var charges: map<FeeId, Charge>
    var runs: map<RunId, RunRow>
    var nextFee: FeeId
    var nextRun: RunId

    constructor ()
      ensures State() == Books(map[], map[], map[], 0, 0)
    {
      fees, charges, runs, nextFee, nextRun := map[], map[], map[], 0, 0;
    }

    function State(): Books
      reads this
    {
      Books(fees, charges, runs, nextFee, nextRun)
    }

    /** Collects the charges row by row into the map a plan starts from. */
    method LoadCharged() returns (charged: map<MemberId, set<Period>>)
      ensures forall m :: ChargedTo(charged, m) == ChargedPeriods(State(), m)
    {
      charged := map[];
      var todo := charges.Keys;
      while todo != {}
        invariant todo <= charges.Keys
        invariant forall m :: ChargedTo(charged, m) == ChargedAmong(State(), m, charges.Keys - todo)
        decreases todo
      {
        var f :| f in todo;
        forall m {
          ChargedAmongOneMore(State(), m, charges.Keys - todo, f);
        }
        assert charges.Keys - (todo - {f}) == (charges.Keys - todo) + {f};
        if IsCharged(State(), f) {
          var c := charges[f];
          charged := charged[c.member := ChargedTo(charged, c.member) + {c.period}];
        }
        todo := todo - {f};
      }
      assert forall m :: ChargedAmong(State(), m, charges.Keys) == ChargedPeriods(State(), m);
      assert charges.Keys - todo == charges.Keys;
    }

    method PlanNow(members: seq<Member>, models: seq<Model>, run: RunInput) returns (plan: Plan)
      ensures plan == Planned(members, models, Charged(State()), run)
    {
      var charged := LoadCharged();
      forall m ensures ChargedTo(charged, m) == ChargedTo(Charged(State()), m) {
        ChargedToIsCharged(State(), m);
      }
      PlanDependsOnCharges(members, models, charged, Charged(State()), run);
      plan := PlanFeeRun(members, models, charged, run);
    }

    method CreateFeeRun(members: seq<Member>, models: seq<Model>, run: RunInput) returns (r: Result<RunId, Error>)
      modifies this
      ensures var items := Planned(members, models, Charged(old(State())), run).items;
        if items == [] then r == Err(FeeRunEmpty) && State() == old(State())
        else r == Ok(old(nextRun)) && State() == Created(old(State()), run, items)
      ensures DistinctMembers(members) && DistinctModels(models) ==>
        if r.Ok? then IsStep(old(State()), Create(members, models, run), State())
        else !Enabled(old(State()), Create(members, models, run))
    {
      var plan := PlanNow(members, models, run);
      if |plan.items| == 0 {
        return Err(FeeRunEmpty);
      }
      var id := InsertRun(run, plan.items);
      return Ok(id);
    }

    method InsertRun(run: RunInput, items: seq<Item>) returns (id: RunId)
      modifies this
      ensures id == old(nextRun) && State() == Created(old(State()), run, items)
    {
      id := nextRun;
      runs, nextRun := runs[id := RunRow(run.from, run.to, run.due, false)], nextRun + 1;
      InsertItems(id, items);
    }

    method InsertItems(id: RunId, items: seq<Item>)
      modifies this`fees, this`charges, this`nextFee
      ensures State() == AddItems(old(State()), id, items)
    {
      for i := 0 to |items|
        invariant State() == AddItems(old(State()), id, items[..i])
      {
        assert items[..i + 1][..i] == items[..i];
        var it, fee := items[i], nextFee;
        nextFee := nextFee + 1;
        fees := fees[fee := FeeRow(it.member, it.amount, it.due, false, false, false)];
        charges := charges[fee := Charge(id, it.member, it.model.id, it.period, false)];
      }
      assert items[..|items|] == items;
    }

    method DeleteFeeRun(id: RunId) returns (r: Result<nat, Error>)
      modifies this`fees, this`charges, this`runs
      ensures var b := old(State());
        if id !in b.runs || b.runs[id].deleted then r == Err(NotFound) && State() == b
        else if InCollection(b, id) then r == Err(InCollectionError) && State() == b
        else r == Ok(|OpenFees(b, id)|) && State() == WithoutRun(b, id)
      ensures if r.Ok? then IsStep(old(State()), DeleteRun(id), State()) else !CanDelete(old(State()), id)
    {
      if id !in runs || runs[id].deleted {
        return Err(NotFound);
      }
      if InCollection(State(), id) {
        return Err(InCollectionError);
      }
      var open := OpenFees(State(), id);
      RemoveFees(open);
      if !HasCharges(State(), id) {
        runs := runs[id := runs[id].(deleted := true)];
      }
      return Ok(|open|);
    }

    /** Tombstones the fees and their charges one by one. */
    method RemoveFees(gone: set<FeeId>)
      modifies this`fees, this`charges
      ensures State() == WithoutFees(old(State()), gone)
    {
      var todo := gone;
      while todo != {}
        invariant todo <= gone
        invariant State() == WithoutFees(old(State()), gone - todo)
        decreases todo
      {
        var f :| f in todo;
        RemoveOneMore(old(State()), gone - todo, f);
        assert gone - (todo - {f}) == (gone - todo) + {f};
        if f in fees && !fees[f].deleted {
          fees := fees[f := fees[f].(deleted := true)];
        }
        if f in charges && !charges[f].deleted {
          charges := charges[f := charges[f].(deleted := true)];
        }
        todo := todo - {f};
      }
      assert gone - todo == gone;
    }

    method DeleteFee(f: FeeId) returns (r: Result<(), Error>)
      modifies this`fees, this`charges
      ensures var b := old(State());
        if f !in b.fees || b.fees[f].deleted then r == Err(NotFound) && State() == b
        else r == Ok(()) && State() == WithoutFees(b, {f})
      ensures if r.Ok? then IsStep(old(State()), BillingRuns.Step.DeleteFee(f), State())
              else !Enabled(old(State()), BillingRuns.Step.DeleteFee(f))
    {
      if f !in fees || fees[f].deleted {
        return Err(NotFound);
      }
      RemoveFees({f});
      return Ok(());
    }
  }
}
