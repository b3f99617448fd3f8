/** The tables of billing runs, and what every run of creating and deleting keeps. */
module BillingRuns {
  import opened Wrappers
  import opened Calendar
  import opened Fees
  import opened Billing
  import Sorting

  // ---------- The candidates of a member are disjoint ----------

  predicate DistinctModels(models: seq<Model>) {
    forall i, j | 0 <= i < j < |models| :: models[i].id != models[j].id
  }

  predicate DistinctMembers(members: seq<Member>) {
    forall i, j | 0 <= i < j < |members| :: members[i].id != members[j].id
  }

  predicate Disjoint(list: seq<Candidate>) {
    forall i, j | 0 <= i < j < |list| :: !Overlaps(list[i].period, list[j].period)
  }

  lemma AppendedIsDisjoint(list: seq<Candidate>, c: Candidate)
    requires Disjoint(list) && forall d | d in list :: !Overlaps(d.period, c.period)
    ensures Disjoint(list + [c])
  {
    forall i | 0 <= i < |list| ensures !Overlaps(list[i].period, c.period) {
      assert list[i] in list;
    }
  }

  predicate Apart(c: Candidate, d: Candidate) {
    !Overlaps(c.period, d.period)
  }

  lemma SortKeepsDisjoint(list: seq<Candidate>)
    requires Disjoint(list)
    ensures Disjoint(SortByStart(list))
    ensures forall d :: d in SortByStart(list) <==> d in list
  {
    assert Sorting.Pairwise(list, Apart);
    Sorting.SortKeepsPairwise(list, StartDay, Apart);
    Sorting.SortSorts(list, StartDay);
    var all := SortByStart(list);
    forall i, j | 0 <= i < j < |all| ensures !Overlaps(all[i].period, all[j].period) {
      assert Apart(all[i], all[j]);
    }
  }

  lemma {:induction false} ApplyingFits(m: Member, models: seq<Model>, model: Model, periods: seq<Period>)
    requires forall i, j | 0 <= i < j < |periods| :: !Overlaps(periods[i], periods[j])
    ensures var list := Applying(m, models, model, periods);
      && Disjoint(list)
      && forall c :: c in list <==> c.model == model && c.period in periods && Applies(m, models, model, c.period)
  {
    if periods != [] {
      var p, before := periods[|periods| - 1], periods[..|periods| - 1];
      assert periods == before + [p];
      ApplyingFits(m, models, model, before);
      forall d | d in Applying(m, models, model, before) ensures !Overlaps(d.period, p) {
        var i :| 0 <= i < |before| && before[i] == d.period;
        assert periods[i] == d.period;
      }
      AppendedIsDisjoint(Applying(m, models, model, before), Candidate(model, p));
    }
  }

  lemma PeriodsAreDisjointAndAligned(i: Interval, from: int, to: int)
    ensures var out := Periods(i, from, to);
      && (forall j, k | 0 <= j < k < |out| :: !Overlaps(out[j], out[k]))
      && (forall p | p in out :: IsAligned(p, i))
  {
    var n, out := Months(i), Periods(i, from, to);
    forall j, k | 0 <= j < k < |out| ensures !Overlaps(out[j], out[k]) {
      PeriodsAreDisjoint(n, from, to + 1, j, k);
    }
    forall p | p in out ensures IsAligned(p, i) {
      PeriodsAreAligned(n, from, to + 1, p);
      var s :| from <= s < to + 1 && s % n == 0 && p == PeriodAt(s, n);
    }
  }

  ghost predicate IsAligned(p: Period, i: Interval) {
    Months(i) > 0 && exists s :: s % Months(i) == 0 && p == PeriodAt(s, Months(i))
  }

  /** No period crosses the end of a year. */
  lemma AlignedIsWithinYear(p: Period, i: Interval)
    requires IsAligned(p, i)
    ensures MonthStart(12 * YearOf(p)) <= p.start <= p.end < MonthStart(12 * YearOf(p) + 12)
  {
    var s :| s % Months(i) == 0 && p == PeriodAt(s, Months(i));
    PeriodAtIsWithinYear(s, Months(i));
  }

  lemma PeriodAtIsWithinYear(s: int, n: nat)
    requires n in {1, 3, 6, 12} && s % n == 0
    ensures var p := PeriodAt(s, n);
      MonthStart(12 * YearOf(p)) <= p.start <= p.end < MonthStart(12 * YearOf(p) + 12)
  {
    var p := PeriodAt(s, n);
    MonthStartIsInMonth(s);
    assert MonthOf(p.start) == s && YearOf(p) == s / 12;
    PeriodIsWithinYear(s, n);
  }

  lemma MonthStartIsInMonth(s: int)
    ensures MonthOf(MonthStart(s)) == s
  {
    LaterMonthsStartLater(s, s + 1);
    MonthOfIsUnique(MonthStart(s), s);
  }

  lemma StaysWithinYear(s: int, n: nat, year: int)
    requires n > 0 && year <= s && s + n <= year + 12
    ensures MonthStart(year) <= MonthStart(s) < MonthStart(s + n) <= MonthStart(year + 12)
  {
    LaterMonthsStartLater(year, s);
    LaterMonthsStartLater(s, s + n);
    LaterMonthsStartLater(s + n, year + 12);
  }

  lemma EndsWithinYear(s: int, n: nat, year: int)
    requires n in {1, 3, 6, 12} && s % n == 0 && year == s / 12
    ensures 12 * year <= s && s + n <= 12 * year + 12
  {
    var q, r := s / n, s - 12 * year;
    assert s == n * q && 0 <= r < 12;
    if n == 1 {
    } else if n == 3 {
      assert r == 3 * (q - 4 * year);
    } else if n == 6 {
      assert r == 6 * (q - 2 * year);
    } else {
      assert r == 12 * (q - year);
    }
  }

  lemma PeriodIsWithinYear(s: int, n: nat)
    requires n in {1, 3, 6, 12} && s % n == 0
    ensures var year := s / 12;
      MonthStart(12 * year) <= MonthStart(s) < MonthStart(s + n) <= MonthStart(12 * year + 12)
  {
    EndsWithinYear(s, n, s / 12);
    StaysWithinYear(s, n, 12 * (s / 12));
  }

  lemma YearsAreDisjoint(p: Period, i: Interval, o: Period, j: Interval)
    requires IsAligned(p, i) && IsAligned(o, j) && YearOf(p) != YearOf(o)
    ensures !Overlaps(p, o)
  {
    AlignedIsWithinYear(p, i);
    AlignedIsWithinYear(o, j);
    if YearOf(p) < YearOf(o) {
      MonthsApart(12 * YearOf(p) + 12, 12 * YearOf(o));
    } else {
      MonthsApart(12 * YearOf(o) + 12, 12 * YearOf(p));
    }
  }

  /** In every year one model applies, so candidates of different models are in different years. */
  lemma {:induction false} CandidatesAreDisjoint(m: Member, models: seq<Model>, among: seq<Model>, run: RunInput)
    requires DistinctModels(among)
    ensures var list := AllCandidates(m, models, among, run);
      && Disjoint(list)
      && forall c | c in list ::
           c.model in among && IsAligned(c.period, c.model.interval) && Applies(m, models, c.model, c.period)
  {
    if among != [] {
      var model, front := among[|among| - 1], among[..|among| - 1];
      assert among == front + [model];
      var before, own := AllCandidates(m, models, front, run), Periods(model.interval, run.from, run.to);
      CandidatesAreDisjoint(m, models, front, run);
      PeriodsAreDisjointAndAligned(model.interval, run.from, run.to);
      ApplyingFits(m, models, model, own);
      var last := Applying(m, models, model, own);
      forall i, j | 0 <= i < |before| && 0 <= j < |last| ensures !Overlaps(before[i].period, last[j].period) {
        assert before[i] in before && last[j] in last;
        var k :| 0 <= k < |front| && front[k] == before[i].model;
        assert among[k].id != model.id;
        YearsAreDisjoint(before[i].period, before[i].model.interval, last[j].period, model.interval);
      }
    }
  }

  lemma {:induction false} AgeLimitedAreDistinct(models: seq<Model>)
    requires DistinctModels(models)
    ensures DistinctModels(WithAgeLimit(models)) && forall model | model in WithAgeLimit(models) :: model in models
  {
    if models != [] {
      var last, before := models[|models| - 1], models[..|models| - 1];
      assert models == before + [last];
      AgeLimitedAreDistinct(before);
      var list := WithAgeLimit(before);
      forall i | 0 <= i < |list| ensures list[i].id != last.id {
        assert list[i] in list;
        var k :| 0 <= k < |before| && before[k] == list[i];
        assert models[k].id != last.id;
      }
    }
  }

  /** The candidate periods of one member are disjoint, even if the interval that applies changes from year to year. */
  lemma MemberPeriodsAreDisjoint(m: Member, models: seq<Model>, run: RunInput)
    requires DistinctModels(models)
    ensures Disjoint(PeriodsFor(m, models, run))
  {
    AgeLimitedAreDistinct(models);
    CandidatesAreDisjoint(m, models, CandidateModels(m, models), run);
    SortKeepsDisjoint(AllCandidates(m, models, CandidateModels(m, models), run));
  }

  // ---------- What is charged and what is skipped ----------

  /** Disjoint candidates do not take periods from each other: each is charged unless an earlier charge overlaps it. */
  lemma {:induction false} TakenFromEarlierCharges(list: seq<Candidate>, taken: set<Period>)
    requires Disjoint(list)
    ensures forall p :: p in TakenAfter(list, taken) <==>
      p in taken || exists c :: c in list && c.period == p && !OverlapsAny(p, taken)
  {
    if list != [] {
      var c, before := list[|list| - 1], list[..|list| - 1];
      assert list == before + [c];
      TakenFromEarlierCharges(before, taken);
      NoClash(list, taken);
    }
  }

  lemma NoClash(list: seq<Candidate>, taken: set<Period>)
    requires Disjoint(list) && list != []
    requires var before := list[..|list| - 1];
      forall p :: p in TakenAfter(before, taken) <==>
        p in taken || exists c :: c in before && c.period == p && !OverlapsAny(p, taken)
    ensures OverlapsAny(list[|list| - 1].period, TakenAfter(list[..|list| - 1], taken)) <==>
            OverlapsAny(list[|list| - 1].period, taken)
  {
    var c, before := list[|list| - 1], list[..|list| - 1];
    forall d | d in before ensures !Overlaps(d.period, c.period) {
      EarlierIsDisjoint(list, d);
    }
  }

  /** An item of a member is one of the candidates, and the other way round. */
  lemma {:induction false} ItemsAreCandidates(m: Member, list: seq<Candidate>, taken: set<Period>, run: RunInput)
    requires Disjoint(list)
    ensures forall it :: it in ItemsOf(m, list, taken, run) <==>
              exists c :: c in list && !OverlapsAny(c.period, taken) && it == ItemFor(m, c, run)
  {
    if list != [] {
      var c, before := list[|list| - 1], list[..|list| - 1];
      assert list == before + [c];
      ItemsAreCandidates(m, before, taken, run);
      TakenFromEarlierCharges(before, taken);
      NoClash(list, taken);
    }
  }

  predicate DisjointItems(items: seq<Item>) {
    forall i, j | 0 <= i < j < |items| :: !Overlaps(items[i].period, items[j].period)
  }

  lemma OneMoreItem(items: seq<Item>, it: Item)
    requires DisjointItems(items) && forall i | 0 <= i < |items| :: !Overlaps(items[i].period, it.period)
    ensures DisjointItems(items + [it])
  {
  }

  lemma {:induction false} ItemsAreDisjoint(m: Member, list: seq<Candidate>, taken: set<Period>, run: RunInput)
    requires Disjoint(list)
    ensures DisjointItems(ItemsOf(m, list, taken, run))
  {
    if list != [] {
      var c, before := list[|list| - 1], list[..|list| - 1];
      ItemsAreDisjoint(m, before, taken, run);
      ItemsAreCandidates(m, before, taken, run);
      var items := ItemsOf(m, before, taken, run);
      forall i | 0 <= i < |items| ensures !Overlaps(items[i].period, c.period) {
        assert items[i] in items;
        var d :| d in before && items[i] == ItemFor(m, d, run);
        EarlierIsDisjoint(list, d);
      }
      OneMoreItem(items, ItemFor(m, c, run));
    }
  }

  /** The items charged to a member are the candidates that no earlier charge overlaps. */
  lemma ItemsFit(m: Member, list: seq<Candidate>, taken: set<Period>, run: RunInput)
    requires Disjoint(list)
    ensures var items := ItemsOf(m, list, taken, run);
      && (forall it | it in items :: it.member == m.id && !OverlapsAny(it.period, taken))
      && (forall c | c in list && !OverlapsAny(c.period, taken) :: ItemFor(m, c, run) in items)
      && DisjointItems(items)
  {
    ItemsAreCandidates(m, list, taken, run);
    ItemsAreDisjoint(m, list, taken, run);
  }

  lemma EarlierIsDisjoint(list: seq<Candidate>, d: Candidate)
    requires Disjoint(list) && list != [] && d in list[..|list| - 1]
    ensures !Overlaps(d.period, list[|list| - 1].period)
  {
    var k :| 0 <= k < |list| - 1 && list[..|list| - 1][k] == d;
    assert list[k] == d;
  }

  /** Whatever is skipped as charged already overlaps a charge from before the plan. */
  lemma {:induction false} SkipsOverlapEarlierCharges(m: Member, list: seq<Candidate>, taken: set<Period>)
    requires Disjoint(list)
    ensures forall s | s in SkippedOf(m, list, taken) :: s.reason.AlreadyCharged? && OverlapsAny(s.reason.period, taken)
  {
    if list != [] {
      SkipsOverlapEarlierCharges(m, list[..|list| - 1], taken);
      TakenFromEarlierCharges(list[..|list| - 1], taken);
      NoClash(list, taken);
    }
  }

  /** Over a whole plan: every skip as charged already has its reason in the books. */
  lemma {:induction false} PlannedSkipsHaveReasons(members: seq<Member>, models: seq<Model>,
                                                   charged: map<MemberId, set<Period>>, run: RunInput)
    requires DistinctModels(models)
    ensures forall s | s in Planned(members, models, charged, run).skipped && s.reason.AlreadyCharged? ::
      OverlapsAny(s.reason.period, ChargedTo(charged, s.member))
  {
    if members != [] {
      var m := members[|members| - 1];
      PlannedSkipsHaveReasons(members[..|members| - 1], models, charged, run);
      MemberPeriodsAreDisjoint(m, models, run);
      SkipsOverlapEarlierCharges(m, PeriodsFor(m, models, run), ChargedTo(charged, m.id));
      SkipsAreOfMember(m, PeriodsFor(m, models, run), ChargedTo(charged, m.id));
    }
  }

  lemma {:induction false} SkipsAreOfMember(m: Member, list: seq<Candidate>, taken: set<Period>)
    ensures forall s | s in SkippedOf(m, list, taken) :: s.member == m.id
  {
    if list != [] {
      SkipsAreOfMember(m, list[..|list| - 1], taken);
    }
  }

  /** New items that fit the charges there are and each other. */
  predicate ItemsFitCharges(items: seq<Item>, charged: map<MemberId, set<Period>>) {
    && (forall it | it in items :: !OverlapsAny(it.period, ChargedTo(charged, it.member)))
    && (forall i, j | 0 <= i < j < |items| && items[i].member == items[j].member ::
          !Overlaps(items[i].period, items[j].period))
  }

  lemma {:induction false} PlannedItemsFit(members: seq<Member>, models: seq<Model>,
                                           charged: map<MemberId, set<Period>>, run: RunInput)
    requires DistinctModels(models) && DistinctMembers(members)
    ensures ItemsFitCharges(Planned(members, models, charged, run).items, charged)
    ensures forall it | it in Planned(members, models, charged, run).items ::
      exists k :: 0 <= k < |members| && members[k].id == it.member
  {
    if members != [] {
      var m, front := members[|members| - 1], members[..|members| - 1];
      PlannedItemsFit(front, models, charged, run);
      MemberPeriodsAreDisjoint(m, models, run);
      ItemsFit(m, PeriodsFor(m, models, run), ChargedTo(charged, m.id), run);
      var before, last := Planned(front, models, charged, run).items, PlanOf(m, models, charged, run).items;
      forall i, j | 0 <= i < |before| && 0 <= j < |last| ensures before[i].member != last[j].member {
        assert before[i] in before && last[j] in last;
        var k :| 0 <= k < |front| && front[k].id == before[i].member;
        assert members[k].id != m.id;
      }
      forall it | it in before ensures exists k :: 0 <= k < |members| && members[k].id == it.member {
        var k :| 0 <= k < |front| && front[k].id == it.member;
        assert members[k].id == it.member;
      }
      assert members[|members| - 1].id == m.id;
    }
  }

  /** Every period due to a member is charged after the run, by it or before. */
  lemma {:induction false} PlanCoversPeriods(members: seq<Member>, models: seq<Model>,
                                             charged: map<MemberId, set<Period>>, run: RunInput, k: nat, c: Candidate)
    requires DistinctModels(models) && k < |members| && c in PeriodsFor(members[k], models, run)
    ensures OverlapsAny(c.period, ChargedTo(charged, members[k].id)) ||
      exists it :: it in Planned(members, models, charged, run).items &&
                   it.member == members[k].id && it.period == c.period
  {
    var m, front := members[|members| - 1], members[..|members| - 1];
    if k == |members| - 1 {
      MemberPeriodsAreDisjoint(m, models, run);
      ItemsFit(m, PeriodsFor(m, models, run), ChargedTo(charged, m.id), run);
      if !OverlapsAny(c.period, ChargedTo(charged, m.id)) {
        assert ItemFor(m, c, run) in Planned(members, models, charged, run).items;
      }
    } else {
      PlanCoversPeriods(front, models, charged, run, k, c);
    }
  }

  lemma {:induction false} NothingDue(m: Member, list: seq<Candidate>, taken: set<Period>, run: RunInput)
    requires forall c | c in list :: OverlapsAny(c.period, taken)
    ensures ItemsOf(m, list, taken, run) == [] && TakenAfter(list, taken) == taken
  {
    if list != [] {
      NothingDue(m, list[..|list| - 1], taken, run);
    }
  }

  /** If all periods due are charged, the plan charges nothing. */
  lemma {:induction false} NothingLeftToCharge(members: seq<Member>, models: seq<Model>,
                                               charged: map<MemberId, set<Period>>, run: RunInput)
    requires forall k, c | 0 <= k < |members| && c in PeriodsFor(members[k], models, run) ::
      OverlapsAny(c.period, ChargedTo(charged, members[k].id))
    ensures Planned(members, models, charged, run).items == []
  {
    if members != [] {
      var m, front := members[|members| - 1], members[..|members| - 1];
      assert forall k | 0 <= k < |front| :: front[k] == members[k];
      NothingLeftToCharge(front, models, charged, run);
      assert members[|members| - 1] == m;
      NothingDue(m, PeriodsFor(m, models, run), ChargedTo(charged, m.id), run);
    }
  }

  /** The plan depends on the charges only through the periods of each member. */
  lemma {:induction false} PlanDependsOnCharges(members: seq<Member>, models: seq<Model>,
                                                charged: map<MemberId, set<Period>>,
                                                charged': map<MemberId, set<Period>>, run: RunInput)
    requires forall m :: ChargedTo(charged, m) == ChargedTo(charged', m)
    ensures Planned(members, models, charged, run) == Planned(members, models, charged', run)
  {
    if members != [] {
      PlanDependsOnCharges(members[..|members| - 1], models, charged, charged', run);
    }
  }

  // ---------- When a plan charges a period ----------

  predicate IsPlanned(items: seq<Item>, m: MemberId, p: Period) {
    exists it :: it in items && it.member == m && it.period == p
  }

  /** A plan charges exactly the periods due to a member that no charge in the books overlaps. */
  lemma PlannedExactly(members: seq<Member>, models: seq<Model>, charged: map<MemberId, set<Period>>, run: RunInput,
                       k: nat, c: Candidate)
    requires DistinctModels(models) && DistinctMembers(members)
    requires k < |members| && c in PeriodsFor(members[k], models, run)
    ensures IsPlanned(Planned(members, models, charged, run).items, members[k].id, c.period) <==>
            !OverlapsAny(c.period, ChargedTo(charged, members[k].id))
  {
    PlanCoversPeriods(members, models, charged, run, k, c);
    PlannedItemsFit(members, models, charged, run);
  }

  /** Both books overlap the same of the periods that are due. */
  predicate SameOverlaps(members: seq<Member>, models: seq<Model>, run: RunInput, charged: map<MemberId, set<Period>>,
                         charged': map<MemberId, set<Period>>)
  {
    forall k, c | 0 <= k < |members| && c in PeriodsFor(members[k], models, run) ::
      OverlapsAny(c.period, ChargedTo(charged, members[k].id)) ==
      OverlapsAny(c.period, ChargedTo(charged', members[k].id))
  }

  lemma {:induction false} SameItems(m: Member, list: seq<Candidate>, taken: set<Period>, taken': set<Period>,
                                     run: RunInput)
    requires Disjoint(list) && forall c | c in list :: OverlapsAny(c.period, taken) == OverlapsAny(c.period, taken')
    ensures ItemsOf(m, list, taken, run) == ItemsOf(m, list, taken', run)
    ensures SkippedOf(m, list, taken) == SkippedOf(m, list, taken')
  {
    if list != [] {
      var c, before := list[|list| - 1], list[..|list| - 1];
      assert list == before + [c];
      SameItems(m, before, taken, taken', run);
      TakenFromEarlierCharges(before, taken);
      NoClash(list, taken);
      TakenFromEarlierCharges(before, taken');
      NoClash(list, taken');
    }
  }

  lemma {:induction false} SamePlan(members: seq<Member>, models: seq<Model>, charged: map<MemberId, set<Period>>,
                                    charged': map<MemberId, set<Period>>, run: RunInput)
    requires DistinctModels(models) && SameOverlaps(members, models, run, charged, charged')
    ensures Planned(members, models, charged, run) == Planned(members, models, charged', run)
  {
    if members != [] {
      var m, front := members[|members| - 1], members[..|members| - 1];
      assert forall k | 0 <= k < |front| :: front[k] == members[k];
      SamePlan(front, models, charged, charged', run);
      MemberPeriodsAreDisjoint(m, models, run);
      SameItems(m, PeriodsFor(m, models, run), ChargedTo(charged, m.id), ChargedTo(charged', m.id), run);
    }
  }

  /** Two books give the same plan just when they overlap the same of the periods that are due. */
  lemma SamePlanMeansSameOverlaps(members: seq<Member>, models: seq<Model>, charged: map<MemberId, set<Period>>,
                                  charged': map<MemberId, set<Period>>, run: RunInput)
    requires DistinctModels(models) && DistinctMembers(members)
    ensures Planned(members, models, charged, run) == Planned(members, models, charged', run) <==>
            SameOverlaps(members, models, run, charged, charged')
  {
    if SameOverlaps(members, models, run, charged, charged') {
      SamePlan(members, models, charged, charged', run);
    } else {
      var k: nat, c :| k < |members| && c in PeriodsFor(members[k], models, run) &&
        OverlapsAny(c.period, ChargedTo(charged, members[k].id)) !=
        OverlapsAny(c.period, ChargedTo(charged', members[k].id));
      PlannedExactly(members, models, charged, run, k, c);
      PlannedExactly(members, models, charged', run, k, c);
    }
  }

  // ---------- The books ----------

  type FeeId = nat
  type RunId = nat

  /** `collecting` keeps the run of the fee from being deleted; only `UpdateFee` sets it here. */
  datatype FeeRow = FeeRow(member: MemberId, amount: int, due: int, paid: bool, collecting: bool, deleted: bool)

  datatype Charge = Charge(run: RunId, member: MemberId, model: ModelId, period: Period, deleted: bool)

  datatype RunRow = RunRow(from: int, to: int, due: int, deleted: bool)

  /** Ids are handed out in increasing order. */
  datatype Books = Books(fees: map<FeeId, FeeRow>, charges: map<FeeId, Charge>, runs: map<RunId, RunRow>,
                         nextFee: FeeId, nextRun: RunId)

  predicate IsCharged(b: Books, f: FeeId) {
    f in b.charges && !b.charges[f].deleted && f in b.fees && !b.fees[f].deleted
  }

  /** `ChargedPeriods` of every member that has a charge at all. */
  function Charged(b: Books): map<MemberId, set<Period>> {
    map m | m in ChargedMembers(b) :: ChargedPeriods(b, m)
  }

  function ChargedMembers(b: Books): set<MemberId> {
    set f | f in b.charges :: b.charges[f].member
  }

  function ChargedPeriods(b: Books, m: MemberId): set<Period> {
    set f | f in b.charges && IsCharged(b, f) && b.charges[f].member == m :: b.charges[f].period
  }

  lemma ChargedToIsCharged(b: Books, m: MemberId)
    ensures ChargedTo(Charged(b), m) == ChargedPeriods(b, m)
  {
  }

  function AddItem(b: Books, run: RunId, it: Item): Books {
    b.(fees := b.fees[b.nextFee := NewFee(it)],
       charges := b.charges[b.nextFee := NewCharge(run, it)],
       nextFee := b.nextFee + 1)
  }

  function AddItems(b: Books, run: RunId, items: seq<Item>): Books {
    if items == [] then b else AddItem(AddItems(b, run, items[..|items| - 1]), run, items[|items| - 1])
  }

  function Created(b: Books, run: RunInput, items: seq<Item>): Books {
    AddItems(b.(runs := b.runs[b.nextRun := RunRow(run.from, run.to, run.due, false)], nextRun := b.nextRun + 1),
             b.nextRun, items)
  }

  function OpenFees(b: Books, r: RunId): set<FeeId> {
    set f | f in b.charges && IsCharged(b, f) && b.charges[f].run == r && !b.fees[f].paid
  }

  predicate InCollection(b: Books, r: RunId) {
    exists f :: f in OpenFees(b, r) && b.fees[f].collecting
  }

  function WithoutFees(b: Books, gone: set<FeeId>): Books {
    b.(fees := map f | f in b.fees :: if f in gone then b.fees[f].(deleted := true) else b.fees[f],
       charges := map f | f in b.charges :: if f in gone then b.charges[f].(deleted := true) else b.charges[f])
  }

  predicate HasCharges(b: Books, r: RunId) {
    exists f :: f in b.charges && IsCharged(b, f) && b.charges[f].run == r
  }

  /** The books after deleting the open fees of a run, and with them the run if nothing is left of it. */
  function WithoutRun(b: Books, r: RunId): Books
    requires r in b.runs
  {
    var b' := WithoutFees(b, OpenFees(b, r));
    if HasCharges(b', r) then b' else b'.(runs := b.runs[r := b.runs[r].(deleted := true)])
  }

  // ---------- No day is charged twice ----------

  /** No two live charges of a member share a day. */
  predicate NoDoubleCharge(b: Books) {
    forall f, g | f in b.charges && g in b.charges && f != g && IsCharged(b, f) && IsCharged(b, g)
                  && b.charges[f].member == b.charges[g].member ::
      !Overlaps(b.charges[f].period, b.charges[g].period)
  }

  predicate IdsAreUsed(b: Books) {
    && (forall f | f in b.fees :: f < b.nextFee)
    && (forall f | f in b.charges :: f < b.nextFee && b.charges[f].run < b.nextRun)
    && (forall r | r in b.runs :: r < b.nextRun)
  }

  predicate Good(b: Books) {
    NoDoubleCharge(b) && IdsAreUsed(b)
  }

  predicate IsNewId(b: Books, n: nat, f: FeeId) {
    b.nextFee <= f < b.nextFee + n
  }

  /** `m'` is `m` with the rows added under the ids from `next` on. */
  ghost predicate Appends<V>(m: map<FeeId, V>, m': map<FeeId, V>, next: FeeId, rows: seq<V>) {
    && (forall f :: f in m' <==> f in m || next <= f < next + |rows|)
    && (forall f | f in m :: m'[f] == m[f])
    && (forall f | f in m' && next <= f < next + |rows| :: m'[f] == rows[f - next])
  }

  lemma AppendsOneMore<V>(m: map<FeeId, V>, between: map<FeeId, V>, next: FeeId, rows: seq<V>, row: V)
    requires Appends(m, between, next, rows) && forall f | f in m :: f < next
    ensures Appends(m, between[next + |rows| := row], next, rows + [row])
  {
  }

  /** The items have got new ids in order; everything older is as before. */
  ghost predicate IsAddition(b: Books, b': Books, run: RunId, items: seq<Item>) {
    && b'.nextFee == b.nextFee + |items|
    && Appends(b.fees, b'.fees, b.nextFee, NewFees(items))
    && Appends(b.charges, b'.charges, b.nextFee, NewCharges(run, items))
  }

  function NewFees(items: seq<Item>): seq<FeeRow> {
    seq(|items|, i requires 0 <= i < |items| => NewFee(items[i]))
  }

  function NewCharges(run: RunId, items: seq<Item>): seq<Charge> {
    seq(|items|, i requires 0 <= i < |items| => NewCharge(run, items[i]))
  }

  function NewFee(it: Item): FeeRow {
    FeeRow(it.member, it.amount, it.due, false, false, false)
  }

  function NewCharge(run: RunId, it: Item): Charge {
    Charge(run, it.member, it.model.id, it.period, false)
  }

  lemma {:induction false} AddedItems(b: Books, run: RunId, items: seq<Item>)
    requires IdsAreUsed(b)
    ensures var b' := AddItems(b, run, items);
      IsAddition(b, b', run, items) && b'.runs == b.runs && b'.nextRun == b.nextRun
  {
    if items != [] {
      var front := items[..|items| - 1];
      AddedItems(b, run, front);
      AddedOneMore(b, AddItems(b, run, front), run, items);
    }
  }

  lemma AddedOneMore(b: Books, between: Books, run: RunId, items: seq<Item>)
    requires IdsAreUsed(b) && items != [] && IsAddition(b, between, run, items[..|items| - 1])
    ensures IsAddition(b, AddItem(between, run, items[|items| - 1]), run, items)
  {
    var it, front := items[|items| - 1], items[..|items| - 1];
    AppendsOneMore(b.fees, between.fees, b.nextFee, NewFees(front), NewFee(it));
    AppendsOneMore(b.charges, between.charges, b.nextFee, NewCharges(run, front), NewCharge(run, it));
    assert NewFees(items) == NewFees(front) + [NewFee(it)];
    assert NewCharges(run, items) == NewCharges(run, front) + [NewCharge(run, it)];
  }

  lemma CreatedItems(b: Books, run: RunInput, items: seq<Item>)
    requires IdsAreUsed(b)
    ensures var b' := Created(b, run, items);
      && IsAddition(b, b', b.nextRun, items) && b'.nextRun == b.nextRun + 1
      && b'.runs == b.runs[b.nextRun := RunRow(run.from, run.to, run.due, false)]
  {
    var b0 := b.(runs := b.runs[b.nextRun := RunRow(run.from, run.to, run.due, false)], nextRun := b.nextRun + 1);
    AddedItems(b0, b.nextRun, items);
    AdditionIgnoresRuns(b0, b, Created(b, run, items), b.nextRun, items);
  }

  lemma AdditionIgnoresRuns(b0: Books, b: Books, b': Books, run: RunId, items: seq<Item>)
    requires b0.fees == b.fees && b0.charges == b.charges && b0.nextFee == b.nextFee && IsAddition(b0, b', run, items)
    ensures IsAddition(b, b', run, items)
  {
  }

  predicate ItemsFitBooks(items: seq<Item>, b: Books) {
    && (forall i | 0 <= i < |items| :: !OverlapsAny(items[i].period, ChargedPeriods(b, items[i].member)))
    && (forall i, j | 0 <= i < j < |items| && items[i].member == items[j].member ::
          !Overlaps(items[i].period, items[j].period))
  }

  lemma NewChargeIsDisjoint(b: Books, b': Books, run: RunId, items: seq<Item>, f: FeeId, g: FeeId)
    requires Good(b) && IsAddition(b, b', run, items) && ItemsFitBooks(items, b)
    requires f in b'.charges && g in b'.charges && f < g && b.nextFee <= g && IsCharged(b', f)
    requires b'.charges[f].member == b'.charges[g].member
    ensures !Overlaps(b'.charges[g].period, b'.charges[f].period)
  {
    var it := items[g - b.nextFee];
    assert IsNewId(b, |items|, g) && b'.charges[g] == NewCharge(run, it);
    if f < b.nextFee {
      assert IsCharged(b, f) && b.charges[f].period in ChargedPeriods(b, it.member);
    } else {
      var first := items[f - b.nextFee];
      assert IsNewId(b, |items|, f) && b'.charges[f] == NewCharge(run, first);
    }
  }

  lemma AddingKeepsDisjoint(b: Books, b': Books, run: RunId, items: seq<Item>)
    requires Good(b) && IsAddition(b, b', run, items) && ItemsFitBooks(items, b)
    ensures NoDoubleCharge(b')
  {
    forall f, g | f in b'.charges && g in b'.charges && f < g && IsCharged(b', f) && IsCharged(b', g)
                  && b'.charges[f].member == b'.charges[g].member
      ensures !Overlaps(b'.charges[g].period, b'.charges[f].period)
    {
      if g < b.nextFee {
        assert IsCharged(b, f) && IsCharged(b, g);
      } else {
        NewChargeIsDisjoint(b, b', run, items, f, g);
      }
    }
  }

  lemma PlanFitsBooks(b: Books, members: seq<Member>, models: seq<Model>, run: RunInput)
    requires DistinctMembers(members) && DistinctModels(models)
    ensures ItemsFitBooks(Planned(members, models, Charged(b), run).items, b)
  {
    var items := Planned(members, models, Charged(b), run).items;
    PlannedItemsFit(members, models, Charged(b), run);
    forall i | 0 <= i < |items| ensures !OverlapsAny(items[i].period, ChargedPeriods(b, items[i].member)) {
      assert items[i] in items;
      ChargedToIsCharged(b, items[i].member);
    }
  }

  lemma AddedIdsAreUsed(b: Books, b': Books, items: seq<Item>)
    requires IdsAreUsed(b) && IsAddition(b, b', b.nextRun, items) && b'.nextRun == b.nextRun + 1
    requires b'.runs.Keys == b.runs.Keys + {b.nextRun}
    ensures IdsAreUsed(b')
  {
    forall f | f in b'.charges ensures f < b'.nextFee && b'.charges[f].run < b'.nextRun {
      assert f in b.charges || IsNewId(b, |items|, f);
    }
  }

  lemma CreateKeepsGood(b: Books, members: seq<Member>, models: seq<Model>, run: RunInput)
    requires Good(b) && DistinctMembers(members) && DistinctModels(models)
    ensures Good(Created(b, run, Planned(members, models, Charged(b), run).items))
  {
    PlanFitsBooks(b, members, models, run);
    CreatingKeepsGood(b, run, Planned(members, models, Charged(b), run).items);
  }

  lemma CreatingKeepsGood(b: Books, run: RunInput, items: seq<Item>)
    requires Good(b) && ItemsFitBooks(items, b)
    ensures Good(Created(b, run, items))
  {
    var b' := Created(b, run, items);
    CreatedItems(b, run, items);
    AddingKeepsDisjoint(b, b', b.nextRun, items);
    AddedIdsAreUsed(b, b', items);
  }

  /** Whatever only removes charges keeps the rest disjoint. */
  lemma FewerChargesKeepGood(b: Books, b': Books)
    requires Good(b) && b'.nextFee == b.nextFee && b'.nextRun == b.nextRun
    requires b'.fees.Keys == b.fees.Keys && b'.charges.Keys == b.charges.Keys && b'.runs.Keys == b.runs.Keys
    requires forall f | f in b.charges ::
      b'.charges[f].member == b.charges[f].member && b'.charges[f].period == b.charges[f].period &&
      b'.charges[f].run == b.charges[f].run
    requires forall f | f in b.charges && IsCharged(b', f) :: IsCharged(b, f)
    ensures Good(b')
  {
  }

  lemma WithoutFeesKeepsGood(b: Books, gone: set<FeeId>)
    requires Good(b)
    ensures Good(WithoutFees(b, gone))
  {
    FewerChargesKeepGood(b, WithoutFees(b, gone));
  }

  lemma DeleteRunKeepsGood(b: Books, r: RunId)
    requires Good(b) && r in b.runs
    ensures Good(WithoutRun(b, r))
  {
    var b' := WithoutFees(b, OpenFees(b, r));
    WithoutFeesKeepsGood(b, OpenFees(b, r));
    FewerChargesKeepGood(b', b'.(runs := b.runs[r := b.runs[r].(deleted := true)]));
  }

  lemma UpdateKeepsGood(b: Books, f: FeeId, row: FeeRow)
    requires Good(b) && f in b.fees && row.deleted == b.fees[f].deleted
    ensures Good(b.(fees := b.fees[f := row]))
  {
    FewerChargesKeepGood(b, b.(fees := b.fees[f := row]));
  }

  datatype Step =
    | Create(members: seq<Member>, models: seq<Model>, run: RunInput)
    | DeleteRun(id: RunId)
    | DeleteFee(fee: FeeId)
    | UpdateFee(fee: FeeId, paid: bool, collecting: bool)

  /** A run that exists and has no open fee in collection can be deleted. */
  predicate CanDelete(b: Books, r: RunId) {
    r in b.runs && !b.runs[r].deleted && !InCollection(b, r)
  }

  predicate Enabled(b: Books, step: Step) {
    match step
    case Create(members, models, run) =>
      DistinctMembers(members) && DistinctModels(models) && Planned(members, models, Charged(b), run).items != []
    case DeleteRun(r) => CanDelete(b, r)
    case DeleteFee(f) => f in b.fees && !b.fees[f].deleted
    case UpdateFee(f, _, _) => f in b.fees && !b.fees[f].deleted
  }

  function Next(b: Books, step: Step): Books
    requires Enabled(b, step)
  {
    match step
    case Create(members, models, run) => Created(b, run, Planned(members, models, Charged(b), run).items)
    case DeleteRun(r) => WithoutRun(b, r)
    case DeleteFee(f) => WithoutFees(b, {f})
    case UpdateFee(f, paid, collecting) => b.(fees := b.fees[f := b.fees[f].(paid := paid, collecting := collecting)])
  }

  lemma StepKeepsGood(b: Books, step: Step)
    requires Good(b) && Enabled(b, step)
    ensures Good(Next(b, step))
  {
    match step
    case Create(members, models, run) => CreateKeepsGood(b, members, models, run);
    case DeleteRun(r) => DeleteRunKeepsGood(b, r);
    case DeleteFee(f) => WithoutFeesKeepsGood(b, {f});
    case UpdateFee(f, paid, collecting) => UpdateKeepsGood(b, f, b.fees[f].(paid := paid, collecting := collecting));
  }

  predicate IsStep(b: Books, step: Step, b': Books) {
    Enabled(b, step) && b' == Next(b, step)
  }

  predicate IsRun(states: seq<Books>, steps: seq<Step>) {
    && |states| == |steps| + 1
    && forall i {:trigger steps[i]} | 0 <= i < |steps| :: IsStep(states[i], steps[i], states[i + 1])
  }

  /** Over every run of creating and deleting no member is charged twice for a day. */
  lemma {:induction false} EveryRunIsGood(states: seq<Books>, steps: seq<Step>, n: nat)
    requires IsRun(states, steps) && Good(states[0]) && n < |states|
    ensures Good(states[n])
  {
    if n > 0 {
      EveryRunIsGood(states, steps, n - 1);
      assert IsStep(states[n - 1], steps[n - 1], states[n]);
      NextIsGood(states[n - 1], steps[n - 1], states[n]);
    }
  }

  lemma NextIsGood(b: Books, step: Step, b': Books)
    requires Good(b) && IsStep(b, step, b')
    ensures Good(b')
  {
    StepKeepsGood(b, step);
  }

  // ---------- Repeating a run ----------

  lemma EarlierChargeStays(b: Books, b': Books, run: RunId, items: seq<Item>, m: MemberId, p: Period)
    requires IdsAreUsed(b) && IsAddition(b, b', run, items) && OverlapsAny(p, ChargedPeriods(b, m))
    ensures OverlapsAny(p, ChargedPeriods(b', m))
  {
    var o :| o in ChargedPeriods(b, m) && Overlaps(p, o);
    var f :| f in b.charges && IsCharged(b, f) && b.charges[f].member == m && b.charges[f].period == o;
    assert IsCharged(b', f) && b'.charges[f].member == m;
    assert o in ChargedPeriods(b', m);
  }

  lemma ItemIsCharged(b: Books, b': Books, run: RunId, items: seq<Item>, it: Item)
    requires IsAddition(b, b', run, items) && it in items
    ensures it.period in ChargedPeriods(b', it.member)
  {
    var i :| 0 <= i < |items| && items[i] == it;
    var f := b.nextFee + i;
    assert IsNewId(b, |items|, f) && b'.charges[f] == NewCharge(run, it) && b'.fees[f] == NewFee(it);
    assert IsCharged(b', f);
  }

  /** The live charges of `b` are still live, for the same member, period and run. */
  predicate KeepsCharges(b: Books, now: Books) {
    forall f | f in b.charges && IsCharged(b, f) ::
      IsCharged(now, f) &&
      now.charges[f].member == b.charges[f].member && now.charges[f].period == b.charges[f].period &&
      now.charges[f].run == b.charges[f].run
  }

  lemma KeptChargesOverlap(b: Books, now: Books, m: MemberId, p: Period)
    requires KeepsCharges(b, now) && OverlapsAny(p, ChargedPeriods(b, m))
    ensures OverlapsAny(p, ChargedPeriods(now, m))
  {
    var o :| o in ChargedPeriods(b, m) && Overlaps(p, o);
    var f :| f in b.charges && IsCharged(b, f) && b.charges[f].member == m && b.charges[f].period == o;
    assert IsCharged(now, f) && now.charges[f].member == m && now.charges[f].period == o;
    assert o in ChargedPeriods(now, m);
  }

  /**
   * Planning a billing run again, with members and models unchanged, gives nothing, whatever was created, paid or
   * deleted since, as long as the charges there were after the run are still live.
   */
  lemma RepeatedRunCreatesNothing(b: Books, now: Books, members: seq<Member>, models: seq<Model>, run: RunInput)
    requires Good(b) && DistinctModels(models)
    requires KeepsCharges(Created(b, run, Planned(members, models, Charged(b), run).items), now)
    ensures Planned(members, models, Charged(now), run).items == []
  {
    var items := Planned(members, models, Charged(b), run).items;
    var b' := Created(b, run, items);
    CreatedItems(b, run, items);
    forall k, c | 0 <= k < |members| && c in PeriodsFor(members[k], models, run)
      ensures OverlapsAny(c.period, ChargedTo(Charged(now), members[k].id))
    {
      PeriodIsChargedAfterRun(b, b', members, models, run, k, c);
      ChargedToIsCharged(b', members[k].id);
      ChargedToIsCharged(now, members[k].id);
      KeptChargesOverlap(b', now, members[k].id, c.period);
    }
    NothingLeftToCharge(members, models, Charged(now), run);
  }

  /** In any books: nothing is planned just when a live charge overlaps each period that is due. */
  lemma NothingPlannedMeansAllCharged(b: Books, members: seq<Member>, models: seq<Model>, run: RunInput)
    requires DistinctModels(models) && DistinctMembers(members)
    ensures Planned(members, models, Charged(b), run).items == [] <==>
      forall k: nat, c :: k < |members| && c in PeriodsFor(members[k], models, run) ==>
        OverlapsAny(c.period, ChargedPeriods(b, members[k].id))
  {
    forall m ensures ChargedTo(Charged(b), m) == ChargedPeriods(b, m) {
      ChargedToIsCharged(b, m);
    }
    PlannedFromBooks(b, members, models, run);
    if forall k: nat, c :: k < |members| && c in PeriodsFor(members[k], models, run) ==>
         OverlapsAny(c.period, ChargedPeriods(b, members[k].id)) {
      NothingLeftToCharge(members, models, Charged(b), run);
    }
  }

  lemma PeriodIsChargedAfterRun(b: Books, b': Books, members: seq<Member>, models: seq<Model>, run: RunInput,
                                k: nat, c: Candidate)
    requires IdsAreUsed(b) && DistinctModels(models) && k < |members| && c in PeriodsFor(members[k], models, run)
    requires IsAddition(b, b', b.nextRun, Planned(members, models, Charged(b), run).items)
    ensures OverlapsAny(c.period, ChargedTo(Charged(b'), members[k].id))
  {
    var items, m := Planned(members, models, Charged(b), run).items, members[k].id;
    PlanCoversPeriods(members, models, Charged(b), run, k, c);
    ChargedToIsCharged(b, m);
    ChargedToIsCharged(b', m);
    if OverlapsAny(c.period, ChargedTo(Charged(b), m)) {
      EarlierChargeStays(b, b', b.nextRun, items, m, c.period);
    } else {
      var it :| it in items && it.member == m && it.period == c.period;
      ItemIsCharged(b, b', b.nextRun, items, it);
      CandidatePeriodIsProper(members[k], models, run, c);
      assert Overlaps(c.period, it.period);
    }
  }

  lemma CandidatePeriodIsProper(m: Member, models: seq<Model>, run: RunInput, c: Candidate)
    requires DistinctModels(models) && c in PeriodsFor(m, models, run)
    ensures c.period.start <= c.period.end
  {
    AgeLimitedAreDistinct(models);
    CandidatesAreDisjoint(m, models, CandidateModels(m, models), run);
    SortKeepsDisjoint(AllCandidates(m, models, CandidateModels(m, models), run));
    AlignedIsWithinYear(c.period, c.model.interval);
  }

  lemma OpenFeesOfNewRun(b: Books, b': Books, items: seq<Item>)
    requires IdsAreUsed(b) && IsAddition(b, b', b.nextRun, items)
    ensures forall f :: f in OpenFees(b', b.nextRun) <==> IsNewId(b, |items|, f)
    ensures !InCollection(b', b.nextRun)
  {
    forall f: FeeId ensures f in OpenFees(b', b.nextRun) <==> IsNewId(b, |items|, f) {
      if IsNewId(b, |items|, f) {
        assert b'.charges[f] == NewCharge(b.nextRun, items[f - b.nextFee]);
        assert b'.fees[f] == NewFee(items[f - b.nextFee]);
      }
    }
  }

  lemma {:induction false} CountNewIds(s: set<FeeId>, b: Books, n: nat)
    requires forall f :: f in s <==> IsNewId(b, n, f)
    ensures |s| == n
  {
    if n == 0 {
      assert s == {};
    } else {
      var last := b.nextFee + n - 1;
      assert IsNewId(b, n, last);
      CountNewIds(s - {last}, b, n - 1);
    }
  }

  // ---------- Deleting a run and creating it again ----------

  /** Every fee that is left of the run is open. */
  predicate IsFullyOpen(b: Books, r: RunId) {
    forall f | f in b.charges && IsCharged(b, f) && b.charges[f].run == r :: !b.fees[f].paid
  }

  /** Every item of the run still has its charge. */
  predicate KeepsItems(items: seq<Item>, now: Books, r: RunId) {
    forall it | it in items ::
      exists f :: f in now.charges && IsCharged(now, f) && now.charges[f].run == r &&
                  now.charges[f].member == it.member && now.charges[f].period == it.period
  }

  lemma DeletedCharges(now: Books, r: RunId, f: FeeId)
    requires r in now.runs && f in now.charges
    ensures var b := WithoutRun(now, r);
      && f in b.charges && b.charges[f].member == now.charges[f].member && b.charges[f].period == now.charges[f].period
      && (IsCharged(b, f) <==> IsCharged(now, f) && f !in OpenFees(now, r))
  {
  }

  /** Nothing else is charged on the days of an item, so they are free once its run is deleted. */
  lemma DeletedItemIsFree(now: Books, r: RunId, items: seq<Item>, it: Item)
    requires r in now.runs && NoDoubleCharge(now) && IsFullyOpen(now, r) && KeepsItems(items, now, r) && it in items
    ensures !OverlapsAny(it.period, ChargedPeriods(WithoutRun(now, r), it.member))
  {
    var b := WithoutRun(now, r);
    var f :| f in now.charges && IsCharged(now, f) && now.charges[f].run == r && now.charges[f].member == it.member &&
             now.charges[f].period == it.period;
    assert f in OpenFees(now, r);
    forall o | o in ChargedPeriods(b, it.member) ensures !Overlaps(it.period, o) {
      var g :| g in b.charges && IsCharged(b, g) && b.charges[g].member == it.member && b.charges[g].period == o;
      DeletedCharges(now, r, g);
      assert f != g && IsCharged(now, g);
    }
  }

  /**
   * After a fully open run has been deleted, every period it charged is planned again; a period that was skipped then
   * is planned now just when no live charge overlaps it any more.
   */
  lemma DeletedRunIsPlannedAgain(b: Books, now: Books, r: RunId, members: seq<Member>, models: seq<Model>,
                                 run: RunInput, k: nat, c: Candidate)
    requires DistinctModels(models) && DistinctMembers(members)
    requires r in now.runs && NoDoubleCharge(now) && IsFullyOpen(now, r)
    requires KeepsItems(Planned(members, models, Charged(b), run).items, now, r)
    requires k < |members| && c in PeriodsFor(members[k], models, run)
    ensures var again := Planned(members, models, Charged(WithoutRun(now, r)), run).items;
      IsPlanned(again, members[k].id, c.period) <==>
        || IsPlanned(Planned(members, models, Charged(b), run).items, members[k].id, c.period)
        || !OverlapsAny(c.period, ChargedPeriods(WithoutRun(now, r), members[k].id))
  {
    var items, m := Planned(members, models, Charged(b), run).items, members[k].id;
    ChargedToIsCharged(WithoutRun(now, r), m);
    PlannedExactly(members, models, Charged(WithoutRun(now, r)), run, k, c);
    if IsPlanned(items, m, c.period) {
      var it :| it in items && it.member == m && it.period == c.period;
      DeletedItemIsFree(now, r, items, it);
    }
  }

  /** The charges from before the run do not go with it. */
  lemma EarlierChargesStay(b: Books, now: Books, r: RunId)
    requires r in now.runs && KeepsCharges(b, now) && forall f | f in b.charges :: b.charges[f].run != r
    ensures KeepsCharges(b, WithoutRun(now, r))
  {
    forall f | f in b.charges && IsCharged(b, f) ensures IsCharged(WithoutRun(now, r), f) {
      DeletedCharges(now, r, f);
    }
  }

  lemma PlannedFromBooks(b: Books, members: seq<Member>, models: seq<Model>, run: RunInput)
    requires DistinctModels(models) && DistinctMembers(members)
    ensures forall k: nat, c | k < |members| && c in PeriodsFor(members[k], models, run) ::
      IsPlanned(Planned(members, models, Charged(b), run).items, members[k].id, c.period) ==
        !OverlapsAny(c.period, ChargedPeriods(b, members[k].id))
  {
    forall k: nat, c | k < |members| && c in PeriodsFor(members[k], models, run)
      ensures IsPlanned(Planned(members, models, Charged(b), run).items, members[k].id, c.period) ==
                !OverlapsAny(c.period, ChargedPeriods(b, members[k].id))
    {
      PlannedExactly(members, models, Charged(b), run, k, c);
      ChargedToIsCharged(b, members[k].id);
    }
  }

  lemma SameOverlapAfterDeletion(b: Books, now: Books, r: RunId, items: seq<Item>, m: MemberId, p: Period)
    requires r in now.runs && NoDoubleCharge(now) && IsFullyOpen(now, r) && KeepsItems(items, now, r)
    requires KeepsCharges(b, WithoutRun(now, r)) && IsPlanned(items, m, p) == !OverlapsAny(p, ChargedPeriods(b, m))
    ensures OverlapsAny(p, ChargedPeriods(b, m)) == OverlapsAny(p, ChargedPeriods(WithoutRun(now, r), m))
  {
    if OverlapsAny(p, ChargedPeriods(b, m)) {
      KeptChargesOverlap(b, WithoutRun(now, r), m, p);
    } else {
      var it :| it in items && it.member == m && it.period == p;
      DeletedItemIsFree(now, r, items, it);
    }
  }

  /**
   * Deleting a fully open run at any later time, and planning it again with members and models unchanged, gives the
   * plan it was created from, as long as the charges from before it are still live.
   */
  lemma DeletedRunCanBeRepeated(b: Books, now: Books, r: RunId, members: seq<Member>, models: seq<Model>, run: RunInput)
    requires DistinctModels(models) && DistinctMembers(members)
    requires r in now.runs && NoDoubleCharge(now) && IsFullyOpen(now, r)
    requires KeepsItems(Planned(members, models, Charged(b), run).items, now, r)
    requires KeepsCharges(b, now) && forall f | f in b.charges :: b.charges[f].run != r
    ensures Planned(members, models, Charged(WithoutRun(now, r)), run) == Planned(members, models, Charged(b), run)
  {
    var items := Planned(members, models, Charged(b), run).items;
    PlannedFromBooks(b, members, models, run);
    SameOverlapsAfterDeletion(b, now, r, members, models, run, items);
    SamePlan(members, models, Charged(WithoutRun(now, r)), Charged(b), run);
  }

  lemma SameOverlapsAfterDeletion(b: Books, now: Books, r: RunId, members: seq<Member>, models: seq<Model>,
                                  run: RunInput, items: seq<Item>)
    requires r in now.runs && NoDoubleCharge(now) && IsFullyOpen(now, r) && KeepsItems(items, now, r)
    requires KeepsCharges(b, now) && forall f | f in b.charges :: b.charges[f].run != r
    requires forall k: nat, c | k < |members| && c in PeriodsFor(members[k], models, run) ::
      IsPlanned(items, members[k].id, c.period) == !OverlapsAny(c.period, ChargedPeriods(b, members[k].id))
    ensures SameOverlaps(members, models, run, Charged(WithoutRun(now, r)), Charged(b))
  {
    var after := WithoutRun(now, r);
    EarlierChargesStay(b, now, r);
    forall m
      ensures ChargedTo(Charged(b), m) == ChargedPeriods(b, m)
      ensures ChargedTo(Charged(after), m) == ChargedPeriods(after, m)
    {
      ChargedToIsCharged(b, m);
      ChargedToIsCharged(after, m);
    }
    forall k: nat, c | k < |members| && c in PeriodsFor(members[k], models, run)
      ensures OverlapsAny(c.period, ChargedPeriods(after, members[k].id)) ==
              OverlapsAny(c.period, ChargedPeriods(b, members[k].id))
    {
      SameOverlapAfterDeletion(b, now, r, items, members[k].id, c.period);
    }
  }

  // ---------- Over a run of steps ----------

  /** A charge row stays, whatever happens; only its tombstone may change. */
  predicate KeepsRows(b: Books, now: Books) {
    && b.nextRun <= now.nextRun
    && (forall f | f in b.charges ::
          f in now.charges && now.charges[f].member == b.charges[f].member &&
          now.charges[f].period == b.charges[f].period && now.charges[f].run == b.charges[f].run)
    && (forall f | f in now.charges && f !in b.charges :: now.charges[f].run >= b.nextRun)
  }

  lemma CreatedKeepsRows(b: Books, run: RunInput, items: seq<Item>)
    requires IdsAreUsed(b)
    ensures KeepsRows(b, Created(b, run, items))
  {
    var b' := Created(b, run, items);
    CreatedItems(b, run, items);
    forall f | f in b'.charges && f !in b.charges ensures b'.charges[f].run >= b.nextRun {
      assert IsNewId(b, |items|, f) && b'.charges[f] == NewCharge(b.nextRun, items[f - b.nextFee]);
    }
  }

  lemma TombstonesKeepRows(b: Books, b': Books)
    requires b'.nextRun == b.nextRun && b'.charges.Keys == b.charges.Keys
    requires forall f | f in b.charges :: b'.charges[f].(deleted := false) == b.charges[f].(deleted := false)
    ensures KeepsRows(b, b')
  {
  }

  lemma StepKeepsRows(b: Books, step: Step)
    requires IdsAreUsed(b) && Enabled(b, step)
    ensures KeepsRows(b, Next(b, step))
  {
    match step
    case Create(members, models, run) => CreatedKeepsRows(b, run, Planned(members, models, Charged(b), run).items);
    case DeleteRun(r) => TombstonesKeepRows(b, WithoutRun(b, r));
    case DeleteFee(f) => TombstonesKeepRows(b, WithoutFees(b, {f}));
    case UpdateFee(_, _, _) => TombstonesKeepRows(b, Next(b, step));
  }

  lemma {:induction false} RunKeepsRows(states: seq<Books>, steps: seq<Step>, i: nat, n: nat)
    requires IsRun(states, steps) && Good(states[0]) && i <= n < |states|
    ensures KeepsRows(states[i], states[n])
    decreases n - i
  {
    if i == n {
      SameRows(states[n]);
    } else {
      RunKeepsRows(states, steps, i, n - 1);
      var before, step, after := StepOfRun(states, steps, n - 1);
      RowsAreKeptByStep(states[i], before, step, after);
    }
  }

  lemma SameRows(b: Books)
    ensures KeepsRows(b, b)
  {
  }

  lemma StepOfRun(states: seq<Books>, steps: seq<Step>, n: nat) returns (before: Books, step: Step, after: Books)
    requires IsRun(states, steps) && Good(states[0]) && n + 1 < |states|
    ensures before == states[n] && after == states[n + 1] && IdsAreUsed(before) && IsStep(before, step, after)
  {
    before, step, after := states[n], steps[n], states[n + 1];
    EveryRunIsGood(states, steps, n);
  }

  lemma RowsAreKeptByStep(b: Books, b': Books, step: Step, b'': Books)
    requires KeepsRows(b, b') && IdsAreUsed(b') && IsStep(b', step, b'')
    ensures KeepsRows(b, b'')
  {
    StepKeepsRows(b', step);
    RowsAreKeptOn(b, b', b'');
  }

  lemma RowsAreKeptOn(b: Books, b': Books, b'': Books)
    requires KeepsRows(b, b') && KeepsRows(b', b'')
    ensures KeepsRows(b, b'')
  {
  }

  /** The charges there were after the first step are still live after `n` steps. */
  predicate StillCharged(states: seq<Books>, n: nat)
    requires 1 < |states| && n < |states|
  {
    forall f | f in states[1].charges && IsCharged(states[1], f) :: IsCharged(states[n], f)
  }

  lemma StillChargedIsKept(states: seq<Books>, steps: seq<Step>, n: nat)
    requires IsRun(states, steps) && Good(states[0]) && 1 <= n < |states| && StillCharged(states, n)
    ensures KeepsCharges(states[1], states[n])
  {
    RunKeepsRows(states, steps, 1, n);
  }

  /** Repeating a billing run after any other steps plans nothing while its charges and the earlier ones are live. */
  lemma RunRepeatedLaterCreatesNothing(states: seq<Books>, steps: seq<Step>, members: seq<Member>, models: seq<Model>,
                                       run: RunInput, n: nat)
    requires IsRun(states, steps) && Good(states[0]) && 1 <= n < |states| && StillCharged(states, n)
    requires steps[0] == Create(members, models, run)
    ensures Planned(members, models, Charged(states[n]), run).items == []
  {
    assert IsStep(states[0], steps[0], states[0 + 1]);
    StillChargedIsKept(states, steps, n);
    RepeatedRunCreatesNothing(states[0], states[n], members, models, run);
  }

  lemma CreatedItemsAreKept(b: Books, now: Books, run: RunInput, items: seq<Item>)
    requires IdsAreUsed(b) && KeepsCharges(Created(b, run, items), now)
    ensures KeepsItems(items, now, b.nextRun) && KeepsCharges(b, now)
  {
    var b' := Created(b, run, items);
    CreatedItems(b, run, items);
    forall it | it in items
      ensures exists f :: f in now.charges && IsCharged(now, f) && now.charges[f].run == b.nextRun &&
                          now.charges[f].member == it.member && now.charges[f].period == it.period
    {
      var i :| 0 <= i < |items| && items[i] == it;
      var f := b.nextFee + i;
      assert IsNewId(b, |items|, f) && b'.charges[f] == NewCharge(b.nextRun, it) && b'.fees[f] == NewFee(it);
      assert IsCharged(b', f);
    }
    forall f | f in b.charges && IsCharged(b, f) ensures IsCharged(b', f) && b'.charges[f] == b.charges[f] {
    }
  }

  /** The open fees of the run are exactly those it was created with. */
  lemma OpenFeesOfRun(b: Books, now: Books, run: RunInput, items: seq<Item>)
    requires IdsAreUsed(b) && KeepsRows(Created(b, run, items), now) && KeepsCharges(Created(b, run, items), now)
    requires IsFullyOpen(now, b.nextRun)
    ensures |OpenFees(now, b.nextRun)| == |items|
  {
    var b' := Created(b, run, items);
    CreatedItems(b, run, items);
    OpenFeesOfNewRun(b, b', items);
    forall f: FeeId ensures f in OpenFees(now, b.nextRun) <==> IsNewId(b, |items|, f) {
      if f in OpenFees(now, b.nextRun) {
        assert f in b'.charges && b'.charges[f].run == b.nextRun;
        assert f !in b.charges;
      }
      if IsNewId(b, |items|, f) {
        assert f in OpenFees(b', b.nextRun) && IsCharged(b', f);
      }
    }
    CountNewIds(OpenFees(now, b.nextRun), b, |items|);
  }

  lemma DeletedRunLeavesNothing(now: Books, r: RunId)
    requires r in now.runs && IsFullyOpen(now, r)
    ensures WithoutRun(now, r).runs[r].deleted
  {
    forall f | f in now.charges && IsCharged(WithoutRun(now, r), f) ensures now.charges[f].run != r {
      DeletedCharges(now, r, f);
    }
    assert !HasCharges(WithoutFees(now, OpenFees(now, r)), r);
  }

  /**
   * A billing run, then any other steps, then the deletion of the run while all its fees are open: all its fees go and
   * the run with them, and planning it again gives the same plan.
   */
  lemma RunDeletedLaterCanBeRepeated(states: seq<Books>, steps: seq<Step>, members: seq<Member>, models: seq<Model>,
                                     run: RunInput, n: nat)
    requires IsRun(states, steps) && Good(states[0]) && 1 <= n < |states| && StillCharged(states, n)
    requires steps[0] == Create(members, models, run)
    requires IsFullyOpen(states[n], states[0].nextRun) && CanDelete(states[n], states[0].nextRun)
    ensures var r, now, plan := states[0].nextRun, states[n], Planned(members, models, Charged(states[0]), run);
      && |OpenFees(now, r)| == |plan.items|
      && WithoutRun(now, r).runs[r].deleted
      && Planned(members, models, Charged(WithoutRun(now, r)), run) == plan
  {
    var b, now := states[0], states[n];
    var items := Planned(members, models, Charged(b), run).items;
    assert IsStep(states[0], steps[0], states[0 + 1]);
    StillChargedIsKept(states, steps, n);
    RunKeepsRows(states, steps, 1, n);
    EveryRunIsGood(states, steps, n);
    CreatedItemsAreKept(b, now, run, items);
    OpenFeesOfRun(b, now, run, items);
    DeletedRunLeavesNothing(now, b.nextRun);
    DeletedRunCanBeRepeated(b, now, b.nextRun, members, models, run);
  }
}
