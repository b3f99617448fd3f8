/** Membership fees: the model that applies by age, the billing periods of an interval, and pro-rata amounts. */
module Fees {
  import opened Wrappers
  import opened Order
  import opened Calendar

  type ModelId = nat

  datatype Interval = Yearly | HalfYearly | Quarterly | Monthly | UnknownInterval

  function Months(i: Interval): nat {
    match i
    case Yearly => 12
    case HalfYearly => 6
    case Quarterly => 3
    case Monthly => 1
    case UnknownInterval => 0
  }

  datatype Model = Model(id: ModelId, name: string, amount: int, interval: Interval, minAge: Option<int>,
                         maxAge: Option<int>, proRata: bool)

  // ---------- The model by age ----------

  predicate Fits(m: Model, age: int) {
    && (m.minAge.Some? || m.maxAge.Some?)
    && (m.minAge.Some? ==> age >= m.minAge.value)
    && (m.maxAge.Some? ==> age <= m.maxAge.value)
  }

  function Span(m: Model): int {
    (if m.maxAge.Some? then m.maxAge.value else 200) - (if m.minAge.Some? then m.minAge.value else 0)
  }

  /** The narrower age range wins, then the first name. */
  predicate Beats(a: Model, b: Model) {
    Span(a) < Span(b) || (Span(a) == Span(b) && Less(a.name, b.name))
  }

  function Selected(models: seq<Model>, age: int): Option<Model> {
    if models == [] then None
    else
      var best, m := Selected(models[..|models| - 1], age), models[|models| - 1];
      if Fits(m, age) && (best.None? || Beats(m, best.value)) then Some(m) else best
  }

  method SelectByAge(models: seq<Model>, age: int) returns (best: Option<Model>)
    ensures best == Selected(models, age)
  {
    best := None;
    for i := 0 to |models|
      invariant best == Selected(models[..i], age)
    {
      assert models[..i + 1][..i] == models[..i];
      var m := models[i];
      if (m.minAge.Some? || m.maxAge.Some?) && Fits(m, age) {
        if best.None? || Span(m) < Span(best.value) || (Span(m) == Span(best.value) && Less(m.name, best.value.name)) {
          best := Some(m);
        }
      }
    }
    assert models[..|models|] == models;
  }

  /** The selected model fits and none that fits beats it. */
  lemma {:induction false} SelectedIsBest(models: seq<Model>, age: int)
    ensures match Selected(models, age)
      case None => forall m | m in models :: !Fits(m, age)
      case Some(best) => best in models && Fits(best, age) && forall m | m in models && Fits(m, age) :: !Beats(m, best)
  {
    if models != [] {
      var before, last := models[..|models| - 1], models[|models| - 1];
      assert models == before + [last];
      SelectedIsBest(before, age);
      var best := Selected(before, age);
      LessIsTotal(last.name, last.name);
      if best.Some? && Fits(last, age) && Beats(last, best.value) {
        forall m | m in models && Fits(m, age) ensures !Beats(m, last) {
          if m in before && Beats(m, last) {
            if Less(m.name, last.name) && Less(last.name, best.value.name) {
              LessIsTransitive(m.name, last.name, best.value.name);
            }
          }
        }
      }
    }
  }

  /** A model without an age limit is for nobody by age; limits are inclusive. */
  lemma FitsMeans(m: Model, age: int)
    ensures Fits(m, age) <==>
      match (m.minAge, m.maxAge)
      case (None, None) => false
      case (Some(low), None) => low <= age
      case (None, Some(high)) => age <= high
      case (Some(low), Some(high)) => low <= age <= high
  {
  }

  ghost function AgesUpTo(m: Model, n: nat): set<nat> {
    set age: nat | age < n && Fits(m, age)
  }

  lemma {:induction false} CountAges(m: Model, n: nat, low: nat, high: nat)
    requires forall age: nat | age < n :: Fits(m, age) <==> low <= age <= high
    ensures |AgesUpTo(m, n)| ==
      if n <= low then 0 else if n <= high then n - low else if low <= high then high - low + 1 else 0
  {
    if n == 0 {
      assert AgesUpTo(m, 0) == {};
    } else {
      CountAges(m, n - 1, low, high);
      assert AgesUpTo(m, n) == if Fits(m, n - 1) then AgesUpTo(m, n - 1) + {n - 1} else AgesUpTo(m, n - 1);
    }
  }

  /** The narrower range is the one with fewer ages, out of those from 0 to 200. */
  lemma SpanCountsAges(m: Model, low: nat, high: nat)
    requires m.minAge.Some? || m.maxAge.Some?
    requires low == if m.minAge.Some? then m.minAge.value else 0
    requires high == if m.maxAge.Some? then m.maxAge.value else 200
    requires low <= high <= 200
    ensures |AgesUpTo(m, 201)| == Span(m) + 1
  {
    CountAges(m, 201, low, high);
  }

  /** The selected model has the least span of those that fit, and among these the first name. */
  lemma SelectedMeans(models: seq<Model>, age: int, m: Model)
    requires Selected(models, age).Some? && m in models && Fits(m, age)
    ensures var best := Selected(models, age).value;
      && best in models && Fits(best, age) && Span(best) <= Span(m)
      && (Span(best) == Span(m) ==> best.name == m.name || ComesBefore(best.name, m.name))
  {
    SelectedIsBest(models, age);
    var best := Selected(models, age).value;
    LessIsTotal(best.name, m.name);
    LessMeans(best.name, m.name);
  }

  /** Only a tie, with the same age span and the same name, makes the choice depend on the order of the models. */
  lemma OrderMattersOnlyForTies(models: seq<Model>, models': seq<Model>, age: int)
    requires forall m :: m in models <==> m in models'
    ensures var best, best' := Selected(models, age), Selected(models', age);
      (best.Some? <==> best'.Some?) &&
      (best.Some? ==> Span(best.value) == Span(best'.value) && best.value.name == best'.value.name)
  {
    SelectedIsBest(models, age);
    SelectedIsBest(models', age);
    var best, best' := Selected(models, age), Selected(models', age);
    if best.Some? && best'.Some? {
      LessIsTotal(best.value.name, best'.value.name);
    }
  }

  lemma OrderDoesNotMatter(models: seq<Model>, models': seq<Model>, age: int)
    requires forall m :: m in models <==> m in models'
    requires forall m, n | m in models && n in models && m.name == n.name :: m == n
    ensures Selected(models, age) == Selected(models', age)
  {
    OrderMattersOnlyForTies(models, models', age);
    SelectedIsBest(models, age);
    SelectedIsBest(models', age);
  }

  /** The model fits, and no model that fits beats it. */
  ghost predicate IsBest(models: seq<Model>, age: int, m: Model) {
    m in models && Fits(m, age) && forall n | n in models && Fits(n, age) :: !Beats(n, m)
  }

  /** Of several best models the first one is selected. */
  lemma {:induction false} FirstWins(m: Model, rest: seq<Model>, age: int)
    requires IsBest([m] + rest, age, m)
    ensures Selected([m] + rest, age) == Some(m)
  {
    var all := [m] + rest;
    if rest == [] {
      assert all[..0] == [];
    } else {
      var before, last := rest[..|rest| - 1], rest[|rest| - 1];
      assert all[..|all| - 1] == [m] + before;
      assert forall n | n in [m] + before :: n in all;
      FirstWins(m, before, age);
      assert last in all;
    }
  }

  lemma MovedToFront(models: seq<Model>, m: Model) returns (rest: seq<Model>)
    requires m in models
    ensures multiset([m] + rest) == multiset(models)
  {
    var i :| 0 <= i < |models| && models[i] == m;
    rest := models[..i] + models[i + 1..];
    assert models == models[..i] + [m] + models[i + 1..];
  }

  lemma SameModels(models: seq<Model>, models': seq<Model>)
    requires multiset(models) == multiset(models')
    ensures forall m :: m in models <==> m in models'
  {
    forall m ensures m in models <==> m in models' {
      assert m in multiset(models) <==> m in multiset(models');
    }
  }

  lemma BestIsSelected(models: seq<Model>, age: int, m: Model)
    requires IsBest(models, age, m)
    ensures exists models' :: multiset(models') == multiset(models) && Selected(models', age) == Some(m)
  {
    var rest := MovedToFront(models, m);
    SameModels([m] + rest, models);
    FirstWins(m, rest, age);
  }

  /** Some other order of the models changes the choice just when two different ones are best. */
  lemma TiesDependOnOrder(models: seq<Model>, age: int)
    ensures (exists models' :: multiset(models') == multiset(models) && Selected(models', age) != Selected(models, age))
      <==> exists a, b :: a != b && IsBest(models, age, a) && IsBest(models, age, b)
  {
    SelectedIsBest(models, age);
    var best := Selected(models, age);
    if models' :| multiset(models') == multiset(models) && Selected(models', age) != best {
      SameModels(models, models');
      OrderMattersOnlyForTies(models, models', age);
      SelectedIsBest(models', age);
      var a, b := best.value, Selected(models', age).value;
      assert IsBest(models, age, a) && IsBest(models, age, b);
    }
    if a, b :| a != b && IsBest(models, age, a) && IsBest(models, age, b) {
      var other := if best == Some(a) then b else a;
      BestIsSelected(models, age, other);
    }
  }

  /** Two models of one name for the same ages: each order selects the amount of the first. */
  lemma TiedModels(age: int, first: int, second: int)
    requires 0 <= age <= 17
    ensures var a := Model(1, "Jugend", first, Yearly, Some(0), Some(17), false);
      var b := a.(id := 2, amount := second);
      Selected([a, b], age) == Some(a) && Selected([b, a], age) == Some(b)
  {
    var a := Model(1, "Jugend", first, Yearly, Some(0), Some(17), false);
    var b := a.(id := 2, amount := second);
    LessIsTotal(a.name, b.name);
    assert [a, b] == [a] + [b] && [b, a] == [b] + [a];
    FirstWins(a, [b], age);
    FirstWins(b, [a], age);
  }

  /** Two best models are a tie: they have the same age span and the same name. */
  lemma BestModelsTie(models: seq<Model>, age: int, a: Model, b: Model)
    requires IsBest(models, age, a)
    ensures IsBest(models, age, b) <==> b in models && Fits(b, age) && Span(a) == Span(b) && a.name == b.name
  {
    LessIsTotal(a.name, b.name);
  }

  /** The age in whole years on a day. */
  function Age(birthday: Date, on: Date): int {
    on.month / 12 - birthday.month / 12 -
    var m, n := on.month % 12, birthday.month % 12;
    if m < n || (m == n && on.day < birthday.day) then 1 else 0
  }

  // ---------- Periods ----------

  /** First and last day of a period, both inclusive. */
  datatype Period = Period(start: int, end: int)

  predicate Overlaps(p: Period, o: Period) {
    !(p.start > o.end) && !(o.start > p.end)
  }

  function PeriodAt(month: int, n: nat): Period {
    Period(MonthStart(month), MonthStart(month + n) - 1)
  }

  /** The periods of `n` months aligned to the calendar year that start in the months from `from` up to before `end`. */
  function PeriodsUpTo(n: nat, from: int, end: int): seq<Period>
    requires n > 0
    decreases end - from
  {
    if end <= from then []
    else if (end - 1) % n == 0 then PeriodsUpTo(n, from, end - 1) + [PeriodAt(end - 1, n)]
    else PeriodsUpTo(n, from, end - 1)
  }

  function Periods(i: Interval, from: int, to: int): seq<Period> {
    if Months(i) == 0 then [] else PeriodsUpTo(Months(i), from, to + 1)
  }

  method ListPeriods(i: Interval, from: int, to: int) returns (out: seq<Period>)
    ensures out == Periods(i, from, to)
  {
    var n := Months(i);
    if n == 0 {
      return [];
    }
    out := [];
    var start := from / 12 * 12;
    YearsAreAligned(from / 12, n);
    while start <= to
      invariant start % n == 0 && (start > from ==> start - n <= to)
      invariant out == PeriodsUpTo(n, from, start)
      decreases n - start + (to)
    {
      OnePeriodLater(n, from, start, n);
      NextAligned(start, n);
      if start >= from {
        out := out + [PeriodAt(start, n)];
      }
      start := start + n;
    }
    if start > from {
      NothingUpToAligned(n, from, to + 1, start);
    }
  }

  lemma Remainder(q: int, n: nat, r: nat)
    requires n in {1, 3, 6, 12} && r < n
    ensures (q * n + r) / n == q && (q * n + r) % n == r
  {
    if n == 1 {
      assert q * 1 + r == q;
    } else if n == 3 {
      assert (q * 3 + r) / 3 == q;
    } else if n == 6 {
      assert (q * 6 + r) / 6 == q;
    } else {
      assert (q * 12 + r) / 12 == q;
    }
  }

  lemma YearsAreAligned(year: int, n: nat)
    requires n in {1, 3, 6, 12}
    ensures year * 12 % n == 0
  {
    Remainder(year * (12 / n), n, 0);
    if n == 1 {
      assert year * (12 / n) * n == year * 12;
    } else if n == 3 {
      assert year * (12 / n) * n == year * 12;
    } else if n == 6 {
      assert year * (12 / n) * n == year * 12;
    }
  }

  lemma NextAligned(month: int, n: nat)
    requires n in {1, 3, 6, 12} && month % n == 0
    ensures (month + n) % n == 0
  {
    Remainder(month / n + 1, n, 0);
  }

  lemma NotAligned(month: int, n: nat, k: int)
    requires n in {1, 3, 6, 12} && month % n == 0 && (0 < k < n || 0 < k + n < n)
    ensures (month + k) % n != 0
  {
    if k > 0 {
      Remainder(month / n, n, k);
    } else {
      Remainder(month / n - 1, n, k + n);
    }
  }

  /** Of the `k` months from an aligned one only that one starts a period. */
  lemma {:induction false} OnePeriodLater(n: nat, from: int, start: int, k: nat)
    requires n in {1, 3, 6, 12} && start % n == 0 && 1 <= k <= n
    ensures PeriodsUpTo(n, from, start + k) ==
            PeriodsUpTo(n, from, start) + if start >= from then [PeriodAt(start, n)] else []
  {
    if k > 1 {
      OnePeriodLater(n, from, start, k - 1);
      NotAligned(start, n, k - 1);
    }
  }

  lemma {:induction false} NothingUpToAligned(n: nat, from: int, a: int, b: int)
    requires n in {1, 3, 6, 12} && b % n == 0 && b - n < a <= b
    ensures PeriodsUpTo(n, from, a) == PeriodsUpTo(n, from, b)
    decreases b - a
  {
    if a < b {
      NothingUpToAligned(n, from, a + 1, b);
      NotAligned(b, n, a - b);
    }
  }

  /** The periods are exactly the aligned ones that start in the range. */
  lemma {:induction false} PeriodsAreAligned(n: nat, from: int, end: int, p: Period)
    requires n > 0
    ensures p in PeriodsUpTo(n, from, end) <==> exists s :: from <= s < end && s % n == 0 && p == PeriodAt(s, n)
    decreases end - from
  {
    if end > from {
      PeriodsAreAligned(n, from, end - 1, p);
    }
  }

  /** The last of the periods that start before `end`, if there is one. */
  lemma {:induction false} LastPeriod(n: nat, from: int, end: int) returns (s: int)
    requires n in {1, 3, 6, 12} && PeriodsUpTo(n, from, end) != []
    ensures from <= s < end && s % n == 0 && end - s <= n
    ensures var out := PeriodsUpTo(n, from, end); out[|out| - 1] == PeriodAt(s, n)
    ensures forall t | s < t < end :: t % n != 0
    decreases end - from
  {
    if (end - 1) % n == 0 {
      s := end - 1;
    } else {
      s := LastPeriod(n, from, end - 1);
      if end - s > n {
        NextAligned(s, n);
      }
    }
  }

  /** Each period starts on the day after the one before it ends. */
  lemma {:induction false} PeriodsAreContiguous(n: nat, from: int, end: int, k: nat)
    requires n in {1, 3, 6, 12} && k + 1 < |PeriodsUpTo(n, from, end)|
    ensures var out := PeriodsUpTo(n, from, end); out[k].end + 1 == out[k + 1].start
    decreases end - from
  {
    var before := PeriodsUpTo(n, from, end - 1);
    if k + 1 < |before| {
      PeriodsAreContiguous(n, from, end - 1, k);
    } else {
      var s := LastPeriod(n, from, end - 1);
      if end - 1 - s < n {
        NotAligned(s, n, end - 1 - s);
      }
    }
  }

  lemma {:induction false} PeriodsAreDisjoint(n: nat, from: int, end: int, i: nat, j: nat)
    requires n in {1, 3, 6, 12} && i < j < |PeriodsUpTo(n, from, end)|
    ensures var out := PeriodsUpTo(n, from, end); out[i].end < out[j].start && !Overlaps(out[i], out[j])
    decreases j - i
  {
    var out := PeriodsUpTo(n, from, end);
    PeriodsAreContiguous(n, from, end, j - 1);
    if i < j - 1 {
      PeriodsAreDisjoint(n, from, end, i, j - 1);
      PeriodsAreAligned(n, from, end, out[j - 1]);
      var s :| from <= s < end && s % n == 0 && out[j - 1] == PeriodAt(s, n);
      MonthsApart(s, s + n);
    }
  }

  // ---------- Membership ----------

  /** The exit date itself is outside the membership, the entry date inside. */
  datatype Membership = Membership(entry: Option<int>, exit: Option<int>)

  predicate Between(ms: Membership, start: int, end: int) {
    (ms.entry.Some? ==> ms.entry.value <= end) && (ms.exit.Some? ==> ms.exit.value > start)
  }

  predicate ActiveIn(ms: Membership, p: Period) {
    Between(ms, p.start, p.end)
  }

  predicate ActiveInMonth(ms: Membership, month: int) {
    Between(ms, MonthStart(month), MonthStart(month + 1) - 1)
  }

  function CountActive(ms: Membership, from: int, end: int): nat
    decreases end - from
  {
    if end <= from then 0 else CountActive(ms, from, end - 1) + if ActiveInMonth(ms, end - 1) then 1 else 0
  }

  /** How many of the `n` months from `month` on have a day of membership. */
  method ActiveMonths(ms: Membership, month: int, n: nat) returns (count: nat)
    ensures count == CountActive(ms, month, month + n)
  {
    count := 0;
    var m := month;
    MonthsApart(month, month + n);
    while MonthStart(m) <= PeriodAt(month, n).end
      invariant month <= m <= month + n && count == CountActive(ms, month, m)
      decreases month + n - m
    {
      if m >= month + n {
        MonthsApart(month + n, m);
      }
      if Between(ms, MonthStart(m), MonthStart(m + 1) - 1) {
        count := count + 1;
      }
      m := m + 1;
    }
    if m < month + n {
      MonthsApart(m, month + n);
    }
  }

  /** The first and the last month the member belongs to the club. */
  predicate MonthInMembership(ms: Membership, month: int) {
    (ms.entry.Some? ==> MonthOf(ms.entry.value) <= month) && (ms.exit.Some? ==> month <= MonthOf(ms.exit.value - 1))
  }

  lemma ActiveMonthIsInMembership(ms: Membership, month: int)
    ensures ActiveInMonth(ms, month) <==> MonthInMembership(ms, month)
  {
    if ms.entry.Some? {
      DayIsBeforeMonthEnd(ms.entry.value, month);
    }
    if ms.exit.Some? {
      DayIsBeforeMonthEnd(ms.exit.value - 1, month - 1);
    }
  }

  lemma DayIsBeforeMonthEnd(day: int, month: int)
    ensures day < MonthStart(month + 1) <==> MonthOf(day) <= month
  {
    MonthOfContains(day);
    var m := MonthOf(day);
    if m <= month {
      MonthsApart(m + 1, month + 1);
    } else {
      MonthsApart(month + 1, m);
    }
  }

  lemma {:induction false} CountIsPositive(ms: Membership, from: int, end: int)
    ensures CountActive(ms, from, end) <= if end <= from then 0 else end - from
    ensures CountActive(ms, from, end) >= 1 <==> exists m :: from <= m < end && ActiveInMonth(ms, m)
    decreases end - from
  {
    if end > from {
      CountIsPositive(ms, from, end - 1);
    }
  }

  /**
   * A member is active in a period just when at least one of its months counts, unless the month of entry is after the
   * last month before the exit.
   */
  lemma ActiveMeansMonths(ms: Membership, month: int, n: nat)
    requires n > 0
    ensures CountActive(ms, month, month + n) >= 1 <==>
      ActiveIn(ms, PeriodAt(month, n)) &&
      (ms.entry.Some? && ms.exit.Some? ==> MonthOf(ms.entry.value) <= MonthOf(ms.exit.value - 1))
  {
    CountIsPositive(ms, month, month + n);
    if ms.entry.Some? {
      DayIsBeforeMonthEnd(ms.entry.value, month + n - 1);
    }
    if ms.exit.Some? {
      DayIsBeforeMonthEnd(ms.exit.value - 1, month - 1);
    }
    forall m | month <= m < month + n ensures ActiveInMonth(ms, m) <==> MonthInMembership(ms, m) {
      ActiveMonthIsInMembership(ms, m);
    }
    if ActiveIn(ms, PeriodAt(month, n)) &&
       (ms.entry.Some? && ms.exit.Some? ==> MonthOf(ms.entry.value) <= MonthOf(ms.exit.value - 1)) {
      var m := if ms.entry.Some? && MonthOf(ms.entry.value) > month then MonthOf(ms.entry.value) else month;
      assert ActiveInMonth(ms, m);
    }
  }

  /** Entering strictly before leaving is enough. */
  lemma EntryBeforeExit(ms: Membership, month: int, n: nat)
    requires n > 0 && (ms.entry.Some? && ms.exit.Some? ==> ms.entry.value < ms.exit.value)
    ensures ActiveIn(ms, PeriodAt(month, n)) <==> CountActive(ms, month, month + n) >= 1
  {
    ActiveMeansMonths(ms, month, n);
    if ms.entry.Some? && ms.exit.Some? {
      MonthOfContains(ms.exit.value - 1);
      DayIsBeforeMonthEnd(ms.entry.value, MonthOf(ms.exit.value - 1));
    }
  }

  // ---------- Amounts ----------

  /** Division that drops the fraction, as the server's integers do. */
  function Quotient(a: int, b: int): int
    requires b > 0
  {
    if a >= 0 then a / b else -((-a) / b)
  }

  /** The fraction is dropped on either side of zero. */
  lemma QuotientDropsFraction(a: int, b: int)
    requires b > 0
    ensures var exact := b * Quotient(a, b);
      if a >= 0 then 0 <= exact <= a < exact + b else exact - b < a <= exact <= 0
  {
    if a >= 0 {
      WholePart(a, b);
    } else {
      WholePart(-a, b);
      assert b * Quotient(a, b) == -(b * ((-a) / b));
    }
  }

  lemma WholePart(a: nat, b: nat)
    requires b > 0
    ensures 0 <= b * (a / b) <= a < b * (a / b) + b
  {
    assert a == b * (a / b) + a % b;
    assert 0 <= b * (a / b);
  }

  /** `amount * active / total` in cents, halves going up. */
  function Share(amount: int, active: nat, total: nat): int {
    if total == 0 then 0
    else if active >= total then amount
    else Quotient(amount * active + total / 2, total)
  }

  function Amount(m: Model, month: int, ms: Membership): int {
    if !m.proRata then m.amount
    else Share(m.amount, CountActive(ms, month, month + Months(m.interval)), Months(m.interval))
  }

  /** Rounding half up: down to the quotient, or up by one if the remainder is at least half. */
  lemma RoundedQuotient(p: int, total: nat)
    requires total in {1, 3, 6, 12}
    ensures (p + total / 2) / total == p / total + if 2 * (p % total) >= total then 1 else 0
  {
    var q, r := p / total, p % total;
    if 2 * r >= total {
      Remainder(q + 1, total, r + total / 2 - total);
    } else {
      Remainder(q, total, r + total / 2);
    }
  }

  lemma ShareOfProduct(product: int, total: nat, whole: int)
    requires total in {1, 3, 6, 12} && 0 <= product <= whole * total
    ensures var share := (product + total / 2) / total;
      0 <= share <= whole && 0 <= 2 * (share * total - product) + total <= 2 * total
  {
    RoundedQuotient(product, total);
    var q, r := product / total, product % total;
    assert product == q * total + r;
    if total == 1 {} else if total == 3 {} else if total == 6 {}
  }

  lemma ProductIsBounded(amount: int, active: nat, total: nat)
    requires amount >= 0 && active <= total
    ensures 0 <= amount * active <= amount * total
  {
  }

  /** The share is between nothing and the whole amount, and within half a cent of the exact share. */
  lemma ShareIsRounded(amount: int, active: nat, total: nat)
    requires amount >= 0 && total in {1, 3, 6, 12} && active <= total
    ensures 0 <= Share(amount, active, total) <= amount
    ensures 0 <= 2 * (Share(amount, active, total) * total - amount * active) + total <= 2 * total
  {
    ProductIsBounded(amount, active, total);
    if active < total {
      ShareOfProduct(amount * active, total, amount);
    }
  }

  lemma MoreProductMoreShare(p: int, q: int, total: nat)
    requires total in {1, 3, 6, 12} && 0 <= p <= q
    ensures (p + total / 2) / total <= (q + total / 2) / total
  {
    if total == 1 {} else if total == 3 {} else if total == 6 {}
  }

  lemma MoreMonthsCostMore(amount: int, active: nat, more: nat, total: nat)
    requires amount >= 0 && total in {1, 3, 6, 12} && active <= more
    ensures Share(amount, active, total) <= Share(amount, more, total)
  {
    if active < total {
      ShareIsRounded(amount, active, total);
      if more < total {
        ProductIsBounded(amount, active, more);
        MoreProductMoreShare(amount * active, amount * more, total);
      }
    }
  }

  lemma ComplementsOfProduct(p: int, total: nat, whole: int)
    requires total in {1, 3, 6, 12} && 0 <= p <= whole * total
    ensures (p + total / 2) / total + (whole * total - p + total / 2) / total ==
            whole + if 2 * (p % total) == total then 1 else 0
  {
    var q, r, rest := p / total, p % total, whole * total - p;
    RestOfProduct(whole, q, r, total);
    assert rest == whole * total - (q * total + r);
    RoundedQuotient(p, total);
    RoundedQuotient(rest, total);
  }

  lemma RestOfProduct(whole: int, q: int, r: nat, total: nat)
    requires total in {1, 3, 6, 12} && r < total
    ensures var rest := whole * total - (q * total + r);
      if r == 0 then rest / total == whole - q && rest % total == 0
      else rest / total == whole - q - 1 && rest % total == total - r
  {
    var rest := whole * total - (q * total + r);
    if r == 0 {
      assert (whole - q) * total + 0 == rest;
      Remainder(whole - q, total, 0);
    } else {
      assert (whole - q - 1) * total + (total - r) == rest;
      Remainder(whole - q - 1, total, total - r);
    }
  }

  /** Complementary shares add up to the amount, or to one cent more just when both end in half a cent. */
  lemma SharesAddUp(amount: int, active: nat, total: nat)
    requires amount >= 0 && total in {1, 3, 6, 12} && active <= total
    ensures Share(amount, active, total) + Share(amount, total - active, total) ==
            amount + if 2 * (amount * active % total) == total then 1 else 0
  {
    ProductIsBounded(amount, active, total);
    ProductIsBounded(amount, total - active, total);
    assert amount * (total - active) == amount * total - amount * active;
    ComplementsOfProduct(amount * active, total, amount);
  }
}
