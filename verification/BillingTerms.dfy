/**
 * What a billing run charges, in the terms of members, models and the calendar: which periods are due to a member, and
 * the amount and the due date of every fee.
 */
module BillingTerms {
  import opened Wrappers
  import opened Calendar
  import opened Fees
  import opened Billing
  import opened BillingRuns
  import Sorting

  // ---------- Membership and periods ----------

  /** Entered by the last of the days, and not left by the first one. */
  predicate BelongsIn(ms: Membership, start: int, end: int) {
    (ms.entry.Some? ==> ms.entry.value <= end) && (ms.exit.Some? ==> start < ms.exit.value)
  }

  predicate BelongsOn(ms: Membership, day: int) {
    (ms.entry.Some? ==> ms.entry.value <= day) && (ms.exit.Some? ==> day < ms.exit.value)
  }

  /** For a member that enters before it leaves this is having a day of membership. */
  lemma BelongingMeansADay(ms: Membership, start: int, end: int)
    requires start <= end && (ms.entry.Some? && ms.exit.Some? ==> ms.entry.value < ms.exit.value)
    ensures BelongsIn(ms, start, end) <==> exists day :: start <= day <= end && BelongsOn(ms, day)
  {
    var day := if ms.entry.Some? && ms.entry.value > start then ms.entry.value else start;
    assert BelongsIn(ms, start, end) ==> day <= end && BelongsOn(ms, day);
  }

  predicate BelongsInMonth(ms: Membership, month: int) {
    BelongsIn(ms, MonthStart(month), MonthStart(month + 1) - 1)
  }

  /** The calendar months from `from` on, `n` of them, with at least one day of membership. */
  ghost function MonthsIn(ms: Membership, from: int, n: nat): set<int> {
    set m | from <= m < from + n && BelongsInMonth(ms, m)
  }

  lemma {:induction false} CountedMonths(ms: Membership, from: int, n: nat)
    ensures CountActive(ms, from, from + n) == |MonthsIn(ms, from, n)| <= n
  {
    if n == 0 {
      assert MonthsIn(ms, from, 0) == {};
    } else {
      CountedMonths(ms, from, n - 1);
      OneMoreMonth(ms, from, n - 1);
    }
  }

  lemma OneMoreMonth(ms: Membership, from: int, n: nat)
    ensures MonthsIn(ms, from, n + 1) ==
            if BelongsInMonth(ms, from + n) then MonthsIn(ms, from, n) + {from + n} else MonthsIn(ms, from, n)
    ensures from + n !in MonthsIn(ms, from, n)
    ensures ActiveInMonth(ms, from + n) <==> BelongsInMonth(ms, from + n)
  {
  }

  function IntervalMonths(i: Interval): nat {
    match i
    case Monthly => 1
    case Quarterly => 3
    case HalfYearly => 6
    case Yearly => 12
    case UnknownInterval => 0
  }

  /** The period of the model that starts with the month, which has to be in step with the calendar year. */
  ghost predicate StartsIn(p: Period, i: Interval, s: int) {
    && IntervalMonths(i) > 0 && s % IntervalMonths(i) == 0
    && p == Period(MonthStart(s), MonthStart(s + IntervalMonths(i)) - 1)
  }

  // ---------- Which periods are due ----------

  /** A birthday has come n times, and not once more. */
  predicate HasAge(birthday: Date, on: Date, n: int) {
    && !DateBefore(on, Date(birthday.month + 12 * n, birthday.day))
    && DateBefore(on, Date(birthday.month + 12 * (n + 1), birthday.day))
  }

  predicate DateBefore(a: Date, b: Date) {
    a.month < b.month || (a.month == b.month && a.day < b.day)
  }

  lemma AgeMeans(birthday: Date, on: Date, n: int)
    ensures Age(birthday, on) == n <==> HasAge(birthday, on, n)
  {
    var b, o := birthday.month, on.month;
    assert b == 12 * (b / 12) + b % 12 && o == 12 * (o / 12) + o % 12;
  }

  /** The model a member is charged by in a year. */
  ghost predicate IsModelOf(m: Member, models: seq<Model>, model: Model, year: int) {
    && model in models
    && match m.assignment
       case Exempt => false
       case Fixed(id) => model.id == id
       case Auto =>
         m.birthday.Some? &&
         exists age :: HasAge(m.birthday.value, Date(12 * year, 1), age) && Selected(models, age) == Some(model)
  }

  lemma {:induction false} ModelByIdMeans(models: seq<Model>, model: Model)
    requires DistinctModels(models)
    ensures forall id :: ModelById(models, id) == Some(model) <==> model in models && model.id == id
  {
    if models != [] {
      var front, last := models[..|models| - 1], models[|models| - 1];
      assert models == front + [last];
      ModelByIdMeans(front, model);
      assert forall x | x in front :: x.id != last.id;
    }
  }

  lemma SameModel(models: seq<Model>, a: Model, b: Model)
    requires DistinctModels(models) && a in models && b in models && a.id == b.id
    ensures a == b
  {
  }

  lemma ModelForMeans(m: Member, models: seq<Model>, model: Model, year: int)
    requires DistinctModels(models) && model in models
    ensures (ModelFor(m, models, year).Some? && ModelFor(m, models, year).value.id == model.id) <==>
            IsModelOf(m, models, model, year)
  {
    match m.assignment
    case Exempt =>
    case Fixed(id) =>
      ModelByIdMeans(models, model);
      var found := ModelFor(m, models, year);
      if found.Some? && found.value.id == model.id {
        ModelByIdMeans(models, found.value);
      }
    case Auto =>
      if m.birthday.Some? {
        var age := Age(m.birthday.value, Date(12 * year, 1));
        AgeMeans(m.birthday.value, Date(12 * year, 1), age);
        forall other | HasAge(m.birthday.value, Date(12 * year, 1), other) ensures other == age {
          AgeMeans(m.birthday.value, Date(12 * year, 1), other);
        }
        SelectedIsBest(models, age);
        if Selected(models, age).Some? && Selected(models, age).value.id == model.id {
          SameModel(models, Selected(models, age).value, model);
        }
      }
  }

  lemma {:induction false} AgeLimitMeans(models: seq<Model>, model: Model)
    ensures model in WithAgeLimit(models) <==> model in models && (model.minAge.Some? || model.maxAge.Some?)
  {
    if models != [] {
      assert models == models[..|models| - 1] + [models[|models| - 1]];
      AgeLimitMeans(models[..|models| - 1], model);
    }
  }

  lemma CandidateModelsMean(m: Member, models: seq<Model>, model: Model, year: int)
    requires DistinctModels(models) && IsModelOf(m, models, model, year)
    ensures model in CandidateModels(m, models)
  {
    match m.assignment
    case Fixed(id) => ModelByIdMeans(models, model);
    case Auto =>
      AgeLimitMeans(models, model);
      var age :| HasAge(m.birthday.value, Date(12 * year, 1), age) && Selected(models, age) == Some(model);
      SelectedIsBest(models, age);
  }

  ghost predicate IsDue(m: Member, models: seq<Model>, run: RunInput, model: Model, s: int, p: Period) {
    && run.from <= s <= run.to && StartsIn(p, model.interval, s)
    && BelongsIn(m.membership, p.start, p.end)
    && IsModelOf(m, models, model, s / 12)
  }

  lemma YearOfPeriod(p: Period, i: Interval, s: int)
    requires StartsIn(p, i, s)
    ensures YearOf(p) == s / 12 && MonthOf(p.start) == s
  {
    MonthStartIsInMonth(s);
  }

  lemma {:induction false} AllCandidatesMean(m: Member, models: seq<Model>, among: seq<Model>, run: RunInput,
                                             c: Candidate)
    ensures c in AllCandidates(m, models, among, run) <==>
      c.model in among && c.period in Periods(c.model.interval, run.from, run.to) &&
      Applies(m, models, c.model, c.period)
  {
    if among != [] {
      var front, model := among[..|among| - 1], among[|among| - 1];
      assert among == front + [model];
      AllCandidatesMean(m, models, front, run, c);
      PeriodsAreDisjointAndAligned(model.interval, run.from, run.to);
      ApplyingFits(m, models, model, Periods(model.interval, run.from, run.to));
    }
  }

  lemma StartsInMeans(p: Period, i: Interval, s: int)
    ensures StartsIn(p, i, s) <==> Months(i) > 0 && s % Months(i) == 0 && p == PeriodAt(s, Months(i))
  {
  }

  lemma PeriodsMean(i: Interval, run: RunInput, p: Period)
    ensures p in Periods(i, run.from, run.to) <==> exists s :: run.from <= s <= run.to && StartsIn(p, i, s)
  {
    forall s ensures StartsIn(p, i, s) <==> Months(i) > 0 && s % Months(i) == 0 && p == PeriodAt(s, Months(i)) {
      StartsInMeans(p, i, s);
    }
    if Months(i) > 0 {
      PeriodsOfInterval(i, Months(i), run, p);
    }
  }

  lemma PeriodsOfInterval(i: Interval, n: nat, run: RunInput, p: Period)
    requires n == Months(i) > 0
    requires forall s :: StartsIn(p, i, s) <==> s % n == 0 && p == PeriodAt(s, n)
    ensures p in Periods(i, run.from, run.to) <==> exists s :: run.from <= s <= run.to && StartsIn(p, i, s)
  {
    PeriodsAreAligned(n, run.from, run.to + 1, p);
    if p in Periods(i, run.from, run.to) {
      var s :| run.from <= s < run.to + 1 && s % n == 0 && p == PeriodAt(s, n);
      assert run.from <= s <= run.to && StartsIn(p, i, s);
    }
  }

  /** The periods considered for a member are exactly those that are due. */
  lemma DueMeans(m: Member, models: seq<Model>, run: RunInput, c: Candidate)
    requires DistinctModels(models)
    ensures c in PeriodsFor(m, models, run) <==> exists s :: IsDue(m, models, run, c.model, s, c.period)
  {
    var among := CandidateModels(m, models);
    MemberPeriodsAreDisjoint(m, models, run);
    Sorting.SortSorts(AllCandidates(m, models, among, run), StartDay);
    AllCandidatesMean(m, models, among, run, c);
    PeriodsMean(c.model.interval, run, c.period);
    CandidatesAreModels(m, models, c.model);
    if c in PeriodsFor(m, models, run) {
      var s :| run.from <= s <= run.to && StartsIn(c.period, c.model.interval, s);
      YearOfPeriod(c.period, c.model.interval, s);
      ModelForMeans(m, models, c.model, s / 12);
      assert IsDue(m, models, run, c.model, s, c.period);
    }
    if s :| IsDue(m, models, run, c.model, s, c.period) {
      YearOfPeriod(c.period, c.model.interval, s);
      ModelForMeans(m, models, c.model, s / 12);
      CandidateModelsMean(m, models, c.model, s / 12);
    }
  }

  lemma CandidatesAreModels(m: Member, models: seq<Model>, model: Model)
    requires DistinctModels(models)
    ensures model in CandidateModels(m, models) ==> model in models
  {
    AgeLimitMeans(models, model);
    ModelByIdMeans(models, model);
  }

  // ---------- What is charged ----------

  /** Half a cent goes up: the only whole number of cents that is not more than half a cent too high or less too low. */
  predicate IsRoundedShare(share: int, amount: int, active: nat, months: nat) {
    2 * (amount * active - share * months) < months && 2 * (share * months - amount * active) <= months
  }

  /** What is charged: all of the amount without pro rata or in a full period, and the rounded share otherwise. */
  ghost predicate IsOwed(model: Model, amount: int, ms: Membership, s: int) {
    var n := IntervalMonths(model.interval);
    var active := |MonthsIn(ms, s, n)|;
    && (!model.proRata || active == n ==> amount == model.amount)
    && (model.amount >= 0 ==> 0 <= amount <= model.amount)
    && (model.proRata && model.amount >= 0 ==> IsRoundedShare(amount, model.amount, active, n))
  }

  lemma RoundedPart(p: nat, total: nat)
    requires total in {1, 3, 6, 12}
    ensures var s := (p + total / 2) / total; 2 * (p - s * total) < total && 2 * (s * total - p) <= total
  {
    RoundedQuotient(p, total);
    var q, r := p / total, p % total;
    assert p == q * total + r;
    assert (q + 1) * total == q * total + total;
  }

  lemma ShareIsRoundedShare(amount: int, active: nat, total: nat)
    requires amount >= 0 && total in {1, 3, 6, 12} && active <= total
    ensures IsRoundedShare(Share(amount, active, total), amount, active, total)
  {
    if active < total {
      ProductIsBounded(amount, active, total);
      RoundedPart(amount * active, total);
    }
  }

  lemma AmountMeans(model: Model, ms: Membership, s: int)
    requires IntervalMonths(model.interval) > 0
    ensures IsOwed(model, Amount(model, s, ms), ms, s)
  {
    var n := IntervalMonths(model.interval);
    CountedMonths(ms, s, n);
    if model.amount >= 0 && model.proRata {
      ShareIsRounded(model.amount, CountActive(ms, s, s + n), n);
      ShareIsRoundedShare(model.amount, CountActive(ms, s, s + n), n);
    }
  }

  /** An item of a plan: a period that is due to a member, what is owed for it, and when. */
  ghost predicate IsRightItem(it: Item, m: Member, models: seq<Model>, run: RunInput) {
    && it.member == m.id
    && (exists s :: IsDue(m, models, run, it.model, s, it.period) && IsOwed(it.model, it.amount, m.membership, s))
    && it.due == if it.period.start > run.due then it.period.start else run.due
  }

  lemma ItemForIsRight(m: Member, models: seq<Model>, run: RunInput, c: Candidate)
    requires DistinctModels(models) && c in PeriodsFor(m, models, run)
    ensures IsRightItem(ItemFor(m, c, run), m, models, run)
  {
    DueMeans(m, models, run, c);
    var s :| IsDue(m, models, run, c.model, s, c.period);
    YearOfPeriod(c.period, c.model.interval, s);
    AmountMeans(c.model, m.membership, s);
  }

  /** Every planned item is right, and there is one for every due period that no earlier charge overlaps. */
  lemma {:induction false} PlannedItemsAreRight(members: seq<Member>, models: seq<Model>,
                                                charged: map<MemberId, set<Period>>, run: RunInput, it: Item)
    requires DistinctModels(models) && it in Planned(members, models, charged, run).items
    ensures exists m :: m in members && IsRightItem(it, m, models, run)
  {
    var front, last := members[..|members| - 1], members[|members| - 1];
    assert members == front + [last];
    if it in Planned(front, models, charged, run).items {
      PlannedItemsAreRight(front, models, charged, run, it);
      var m :| m in front && IsRightItem(it, m, models, run);
      assert m in members;
    } else {
      MemberPeriodsAreDisjoint(last, models, run);
      ItemsAreCandidates(last, PeriodsFor(last, models, run), ChargedTo(charged, last.id), run);
      var c :| c in PeriodsFor(last, models, run) && it == ItemFor(last, c, run);
      ItemForIsRight(last, models, run, c);
    }
  }

  /** The other way: a due period is planned just when no live charge of the member shares a day with it. */
  lemma DuePeriodIsPlanned(members: seq<Member>, models: seq<Model>, charged: map<MemberId, set<Period>>, run: RunInput,
                           k: nat, model: Model, s: int, p: Period)
    requires DistinctModels(models) && DistinctMembers(members) && k < |members|
    requires IsDue(members[k], models, run, model, s, p)
    ensures (exists it :: it in Planned(members, models, charged, run).items &&
                          it.member == members[k].id && it.period == p) <==>
      forall o | members[k].id in charged && o in charged[members[k].id] :: o.end < p.start || p.end < o.start
  {
    DueMeans(members[k], models, run, Candidate(model, p));
    PlannedExactly(members, models, charged, run, k, Candidate(model, p));
  }

  /** The rows a run is stored in: for each item a fee that is neither paid nor collected, and its charge. */
  lemma RowsOfRun(b: Books, run: RunInput, items: seq<Item>, i: nat)
    requires IdsAreUsed(b) && i < |items|
    ensures var b', f := Created(b, run, items), b.nextFee + i;
      && f in b'.fees && f in b'.charges && f !in b.fees && f !in b.charges
      && b'.fees[f] == FeeRow(items[i].member, items[i].amount, items[i].due, false, false, false)
      && b'.charges[f] == Charge(b.nextRun, items[i].member, items[i].model.id, items[i].period, false)
  {
    CreatedItems(b, run, items);
  }

  /** Of a run that is created, every fee is right for its member, and nothing that was there changes. */
  lemma CreatedFeesAreRight(b: Books, members: seq<Member>, models: seq<Model>, run: RunInput, f: FeeId)
    requires IdsAreUsed(b) && DistinctModels(models)
    requires var b' := Created(b, run, Planned(members, models, Charged(b), run).items); f in b'.fees
    ensures var items := Planned(members, models, Charged(b), run).items;
      var b' := Created(b, run, items);
      if f in b.fees then b'.fees[f] == b.fees[f]
      else exists it, m :: it in items && m in members && IsRightItem(it, m, models, run) &&
                           b'.fees[f] == FeeRow(m.id, it.amount, it.due, false, false, false)
  {
    var items := Planned(members, models, Charged(b), run).items;
    CreatedItems(b, run, items);
    if f !in b.fees {
      var it := items[f - b.nextFee];
      assert it in items;
      PlannedItemsAreRight(members, models, Charged(b), run, it);
      var m :| m in members && IsRightItem(it, m, models, run);
      assert Created(b, run, items).fees[f] == FeeRow(m.id, it.amount, it.due, false, false, false);
    }
  }

  // ---------- Deleting a run ----------

  /** Neither the charge of the fee nor the fee is deleted. */
  predicate IsLive(b: Books, f: FeeId) {
    f in b.charges && f in b.fees && !b.charges[f].deleted && !b.fees[f].deleted
  }

  /** What is charged to a member: the periods of its live charges. */
  lemma ChargedPeriodsMean(b: Books, m: MemberId, p: Period)
    ensures p in ChargedTo(Charged(b), m) <==>
      exists f :: IsLive(b, f) && b.charges[f].member == m && b.charges[f].period == p
  {
    ChargedToIsCharged(b, m);
  }

  predicate IsOpenIn(b: Books, r: RunId, f: FeeId) {
    IsLive(b, f) && b.charges[f].run == r && !b.fees[f].paid
  }

  lemma OpenFeesMean(b: Books, r: RunId)
    ensures OpenFees(b, r) == set f | f in b.charges && IsOpenIn(b, r, f)
    ensures InCollection(b, r) <==> exists f :: IsOpenIn(b, r, f) && b.fees[f].collecting
  {
  }

  /** Its unpaid fees and their charges go, and the run with them unless a paid fee stays; all else is as it was. */
  lemma DeletedRunMeans(b: Books, r: RunId, f: FeeId)
    requires r in b.runs
    ensures var b' := WithoutRun(b, r);
      && b'.fees.Keys == b.fees.Keys && b'.charges.Keys == b.charges.Keys && b'.runs.Keys == b.runs.Keys
      && (f in b.fees ==> b'.fees[f] == b.fees[f].(deleted := b.fees[f].deleted || IsOpenIn(b, r, f)))
      && (f in b.charges ==> b'.charges[f] == b.charges[f].(deleted := b.charges[f].deleted || IsOpenIn(b, r, f)))
  {
    OpenFeesMean(b, r);
  }

  lemma RunIsDeletedWithItsFees(b: Books, r: RunId, other: RunId)
    requires r in b.runs && other in b.runs
    ensures other in WithoutRun(b, r).runs
    ensures WithoutRun(b, r).runs[other] == if other != r then b.runs[other] else
      b.runs[r].(deleted := b.runs[r].deleted || !exists f :: IsLive(b, f) && b.charges[f].run == r && b.fees[f].paid)
  {
    OpenFeesMean(b, r);
    var b' := WithoutFees(b, OpenFees(b, r));
    forall f ensures (IsCharged(b', f) && b'.charges[f].run == r) <==>
                     (IsLive(b, f) && b.charges[f].run == r && b.fees[f].paid) {
    }
  }

  /** Deleting one fee takes its charge along. */
  lemma DeletedFeeMeans(b: Books, f: FeeId, g: FeeId)
    ensures var b' := WithoutFees(b, {f});
      && b'.fees.Keys == b.fees.Keys && b'.charges.Keys == b.charges.Keys && b'.runs == b.runs
      && (g in b.fees ==> b'.fees[g] == if g == f then b.fees[f].(deleted := true) else b.fees[g])
      && (g in b.charges ==> b'.charges[g] == if g == f then b.charges[f].(deleted := true) else b.charges[g])
  {
  }
}
