/** Planning a billing run: which member is charged for which periods. */
module Billing {
  import opened Wrappers
  import opened Calendar
  import opened Fees
  import Sorting

  type MemberId = nat

  datatype Assignment = Auto | Exempt | Fixed(model: ModelId)

  datatype Member = Member(id: MemberId, birthday: Option<Date>, membership: Membership, assignment: Assignment)

  /** The months whose periods are charged, and the day the fees are due on. */
  datatype RunInput = RunInput(from: int, to: int, due: int)

  datatype Item = Item(member: MemberId, model: Model, period: Period, amount: int, due: int)

  datatype SkipReason = NoModel | IsExempt | AlreadyCharged(model: Model, period: Period)

  datatype Skip = Skip(member: MemberId, reason: SkipReason)

  datatype Plan = Plan(items: seq<Item>, skipped: seq<Skip>)

  datatype Candidate = Candidate(model: Model, period: Period)

  // ---------- The model of a member ----------

  function ModelById(models: seq<Model>, id: ModelId): Option<Model> {
    if models == [] then None
    else if models[|models| - 1].id == id then Some(models[|models| - 1])
    else ModelById(models[..|models| - 1], id)
  }

  /** An assigned model is taken as it is; otherwise the age on 1 January of the year selects one. */
  function ModelFor(m: Member, models: seq<Model>, year: int): Option<Model> {
    match m.assignment
    case Exempt => None
    case Fixed(id) => ModelById(models, id)
    case Auto => if m.birthday.None? then None else Selected(models, Age(m.birthday.value, Date(12 * year, 1)))
  }

  function WithAgeLimit(models: seq<Model>): seq<Model> {
    if models == [] then []
    else
      var before, model := WithAgeLimit(models[..|models| - 1]), models[|models| - 1];
      if model.minAge.Some? || model.maxAge.Some? then before + [model] else before
  }

  /** The fixed model, or every model with an age limit. */
  function CandidateModels(m: Member, models: seq<Model>): seq<Model> {
    match m.assignment
    case Exempt => []
    case Fixed(id) => if ModelById(models, id).Some? then [ModelById(models, id).value] else []
    case Auto => WithAgeLimit(models)
  }

  // ---------- The periods of a member ----------

  function YearOf(p: Period): int {
    MonthOf(p.start) / 12
  }

  /** Whether a period of a candidate model becomes a candidate period. */
  predicate Applies(m: Member, models: seq<Model>, model: Model, p: Period) {
    && ActiveIn(m.membership, p)
    && ModelFor(m, models, YearOf(p)).Some?
    && ModelFor(m, models, YearOf(p)).value.id == model.id
  }

  function Applying(m: Member, models: seq<Model>, model: Model, periods: seq<Period>): seq<Candidate> {
    if periods == [] then []
    else
      var before, p := Applying(m, models, model, periods[..|periods| - 1]), periods[|periods| - 1];
      if Applies(m, models, model, p) then before + [Candidate(model, p)] else before
  }

  function AllCandidates(m: Member, models: seq<Model>, among: seq<Model>, run: RunInput): seq<Candidate> {
    if among == [] then []
    else
      var model := among[|among| - 1];
      AllCandidates(m, models, among[..|among| - 1], run) +
      Applying(m, models, model, Periods(model.interval, run.from, run.to))
  }

  function StartDay(c: Candidate): int {
    c.period.start
  }

  function SortByStart(list: seq<Candidate>): seq<Candidate> {
    Sorting.Sort(list, StartDay)
  }

  function PeriodsFor(m: Member, models: seq<Model>, run: RunInput): seq<Candidate> {
    SortByStart(AllCandidates(m, models, CandidateModels(m, models), run))
  }

  // ---------- Charging ----------

  predicate OverlapsAny(p: Period, taken: set<Period>) {
    exists o :: o in taken && Overlaps(p, o)
  }

  /** The periods taken once the candidates have been gone through. */
  function TakenAfter(list: seq<Candidate>, taken: set<Period>): set<Period> {
    if list == [] then taken
    else
      var before, c := TakenAfter(list[..|list| - 1], taken), list[|list| - 1];
      if OverlapsAny(c.period, before) then before else before + {c.period}
  }

  function ItemFor(m: Member, c: Candidate, run: RunInput): Item {
    var p := c.period;
    Item(m.id, c.model, p, Amount(c.model, MonthOf(p.start), m.membership),
         if p.start > run.due then p.start else run.due)
  }

  function ItemsOf(m: Member, list: seq<Candidate>, taken: set<Period>, run: RunInput): seq<Item> {
    if list == [] then []
    else
      var before, c := list[..|list| - 1], list[|list| - 1];
      if OverlapsAny(c.period, TakenAfter(before, taken)) then ItemsOf(m, before, taken, run)
      else ItemsOf(m, before, taken, run) + [ItemFor(m, c, run)]
  }

  function SkippedOf(m: Member, list: seq<Candidate>, taken: set<Period>): seq<Skip> {
    if list == [] then []
    else
      var before, c := list[..|list| - 1], list[|list| - 1];
      if OverlapsAny(c.period, TakenAfter(before, taken)) then
        SkippedOf(m, before, taken) + [Skip(m.id, AlreadyCharged(c.model, c.period))]
      else SkippedOf(m, before, taken)
  }

  function ChargedTo(charged: map<MemberId, set<Period>>, m: MemberId): set<Period> {
    if m in charged then charged[m] else {}
  }

  function PlanOf(m: Member, models: seq<Model>, charged: map<MemberId, set<Period>>, run: RunInput): Plan {
    var list, taken := PeriodsFor(m, models, run), ChargedTo(charged, m.id);
    if list != [] then Plan(ItemsOf(m, list, taken, run), SkippedOf(m, list, taken))
    else if !ActiveIn(m.membership, Period(MonthStart(run.from), MonthStart(run.to + 1) - 1)) then Plan([], [])
    else Plan([], [Skip(m.id, if m.assignment.Exempt? then IsExempt else NoModel)])
  }

  function Planned(members: seq<Member>, models: seq<Model>, charged: map<MemberId, set<Period>>, run: RunInput): Plan {
    if members == [] then Plan([], [])
    else
      var before := Planned(members[..|members| - 1], models, charged, run);
      var last := PlanOf(members[|members| - 1], models, charged, run);
      Plan(before.items + last.items, before.skipped + last.skipped)
  }

  // ---------- The plan as it is computed ----------

  method PlanFeeRun(members: seq<Member>, models: seq<Model>, charged: map<MemberId, set<Period>>, run: RunInput)
    returns (plan: Plan)
    ensures plan == Planned(members, models, charged, run)
  {
    plan := Plan([], []);
    for i := 0 to |members|
      invariant plan == Planned(members[..i], models, charged, run)
    {
      assert members[..i + 1][..i] == members[..i];
      var own := PlanMember(members[i], models, charged, run);
      plan := Plan(plan.items + own.items, plan.skipped + own.skipped);
    }
    assert members[..|members|] == members;
  }

  method PlanMember(m: Member, models: seq<Model>, charged: map<MemberId, set<Period>>, run: RunInput)
    returns (plan: Plan)
    ensures plan == PlanOf(m, models, charged, run)
  {
    var periods := FindPeriods(m, models, run);
    if |periods| == 0 {
      assert PeriodsFor(m, models, run) == [];
      if !ActiveIn(m.membership, Period(MonthStart(run.from), MonthStart(run.to + 1) - 1)) {
        return Plan([], []);
      }
      return Plan([], [Skip(m.id, if m.assignment.Exempt? then IsExempt else NoModel)]);
    }
    var items, skipped := ChargePeriods(m, SortByStart(periods), ChargedTo(charged, m.id), run);
    return Plan(items, skipped);
  }

  method ChargePeriods(m: Member, periods: seq<Candidate>, charged: set<Period>, run: RunInput)
    returns (items: seq<Item>, skipped: seq<Skip>)
    ensures items == ItemsOf(m, periods, charged, run) && skipped == SkippedOf(m, periods, charged)
  {
    var taken := charged;
    items, skipped := [], [];
    for i := 0 to |periods|
      invariant taken == TakenAfter(periods[..i], charged)
      invariant items == ItemsOf(m, periods[..i], charged, run) && skipped == SkippedOf(m, periods[..i], charged)
    {
      assert periods[..i + 1][..i] == periods[..i];
      var c := periods[i];
      if OverlapsAny(c.period, taken) {
        skipped := skipped + [Skip(m.id, AlreadyCharged(c.model, c.period))];
      } else {
        taken := taken + {c.period};
        items := items + [ItemFor(m, c, run)];
      }
    }
    assert periods[..|periods|] == periods;
  }

  method FindPeriods(m: Member, models: seq<Model>, run: RunInput) returns (periods: seq<Candidate>)
    ensures periods == AllCandidates(m, models, CandidateModels(m, models), run)
  {
    var candidates := CandidateModels(m, models);
    periods := [];
    for i := 0 to |candidates|
      invariant periods == AllCandidates(m, models, candidates[..i], run)
    {
      assert candidates[..i + 1][..i] == candidates[..i];
      var model := candidates[i];
      var all := ListPeriods(model.interval, run.from, run.to);
      var own := SelectApplying(m, models, model, all);
      periods := periods + own;
    }
    assert candidates[..|candidates|] == candidates;
  }

  method SelectApplying(m: Member, models: seq<Model>, model: Model, all: seq<Period>) returns (periods: seq<Candidate>)
    ensures periods == Applying(m, models, model, all)
  {
    periods := [];
    for j := 0 to |all|
      invariant periods == Applying(m, models, model, all[..j])
    {
      assert all[..j + 1][..j] == all[..j];
      if Applies(m, models, model, all[j]) {
        periods := periods + [Candidate(model, all[j])];
      }
    }
    assert all[..|all|] == all;
  }
}
