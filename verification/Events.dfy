/** Recurring events in local wall-clock time, and their expansion into the occurrences of a window. */
module Events {
  import opened Wrappers
  import opened Calendar

  datatype Recurrence = NoRecurrence | Weekly | Biweekly | Monthly

  /** A local wall-clock time; `secs` counts from midnight. */
  datatype Moment = Moment(day: int, secs: int)

  predicate Before(a: Moment, b: Moment) {
    a.day < b.day || (a.day == b.day && a.secs < b.secs)
  }

  /** `until` is the last day an occurrence may start on; `exceptions` are the excluded start days. */
  datatype Event = Event(start: Date, startSecs: int, end: Date, endSecs: int, allDay: bool, recurrence: Recurrence,
                         until: Option<int>, exceptions: set<int>)

  /** An occurrence; the day it starts on identifies it. */
  datatype Occurrence = Occurrence(start: Moment, end: Moment)

  const MAX_OCCURRENCES := 2000

  /** An event does not end before it starts: others are rejected when they are entered. */
  predicate Valid(e: Event) {
    && IsDate(e.start) && IsDate(e.end) && 0 <= e.startSecs < 86400 && 0 <= e.endSecs < 86400
    && !Before(Moment(DayNumber(e.end), e.endSecs), Moment(DayNumber(e.start), e.startSecs))
  }

  // ---------- The series ----------

  function First(e: Event): Moment {
    Moment(DayNumber(e.start), if e.allDay then 0 else e.startSecs)
  }

  /** For all-day events only the dates count, and the end is at least one day later. */
  function Last(e: Event): Moment {
    if !e.allDay then Moment(DayNumber(e.end), e.endSecs)
    else if DayNumber(e.end) > DayNumber(e.start) then Moment(DayNumber(e.end), 0)
    else Moment(DayNumber(e.start) + 1, 0)
  }

  function SpanDays(e: Event): int {
    Last(e).day - First(e).day
  }

  /** The day the k-th occurrence would start on. */
  function DayAt(e: Event, k: int): int {
    match e.recurrence
    case NoRecurrence => First(e).day
    case Weekly => First(e).day + 7 * k
    case Biweekly => First(e).day + 14 * k
    case Monthly => MonthStart(e.start.month + k) + e.start.day - 1
  }

  /** Months without the day are skipped. */
  predicate Occurs(e: Event, k: int) {
    match e.recurrence
    case NoRecurrence => k == 0
    case Weekly => true
    case Biweekly => true
    case Monthly => e.start.day <= MonthLength(e.start.month + k)
  }

  function OccurrenceAt(e: Event, k: int): Occurrence {
    Occurrence(Moment(DayAt(e, k), First(e).secs), Moment(DayAt(e, k) + SpanDays(e), Last(e).secs))
  }

  /** The occurrence starts within the until bound and is not excluded. */
  predicate Counts(e: Event, k: int) {
    Occurs(e, k) && (e.until.Some? ==> DayAt(e, k) <= e.until.value) && DayAt(e, k) !in e.exceptions
  }

  predicate Overlaps(o: Occurrence, from: int, to: int) {
    Before(o.start, Moment(to + 1, 0)) && Before(Moment(from, 0), o.end)
  }

  /** The plain expansion: the first `n` occurrences of the series, one by one, as far as they are in the window. */
  function Series(e: Event, from: int, to: int, n: nat): seq<Occurrence> {
    if n == 0 then []
    else if Counts(e, n - 1) && Overlaps(OccurrenceAt(e, n - 1), from, to) then
      Series(e, from, to, n - 1) + [OccurrenceAt(e, n - 1)]
    else Series(e, from, to, n - 1)
  }

  // ---------- The expansion ----------

  /** The occurrence the expansion starts from: a little before the window. */
  function FirstStep(e: Event, from: Date): nat {
    if e.recurrence == NoRecurrence || DayNumber(from) <= First(e).day then 0
    else
      var days := DayNumber(from) - First(e).day;
      var k := match e.recurrence
        case NoRecurrence => 0
        case Weekly => days / 7 - SpanDays(e) / 7 - 1
        case Biweekly => days / 14 - SpanDays(e) / 14 - 1
        case Monthly => from.month - e.start.month - SpanDays(e) / 28 - 1;
      if k < 0 then 0 else k
  }

  /** The step before which the expansion stops at the latest. */
  function LastStep(e: Event, from: Date): nat {
    FirstStep(e, from) + MAX_OCCURRENCES
  }

  method Expand(e: Event, from: Date, to: Date) returns (result: seq<Occurrence>)
    requires Valid(e) && IsDate(from) && IsDate(to)
    ensures result == Series(e, DayNumber(from), DayNumber(to), LastStep(e, from))
  {
    var windowStart, windowEnd := Moment(DayNumber(from), 0), Moment(DayNumber(to) + 1, 0);
    var k := FirstStep(e, from);
    NothingBeforeFirstStep(e, from, to, k);
    result := [];
    var n := 0;
    while n < MAX_OCCURRENCES
      invariant 0 <= n <= MAX_OCCURRENCES && k == FirstStep(e, from) + n
      invariant result == Series(e, windowStart.day, DayNumber(to), k)
    {
      var o := OccurrenceAt(e, k);
      if !Before(o.start, windowEnd) || (e.until.Some? && !Before(o.start, Moment(e.until.value + 1, 0))) {
        NothingAfter(e, windowStart.day, DayNumber(to), k, LastStep(e, from));
        return;
      }
      if Occurs(e, k) {
        if Before(windowStart, o.end) && o.start.day !in e.exceptions {
          result := result + [o];
        }
        if e.recurrence == NoRecurrence {
          NothingAfterOnce(e, windowStart.day, DayNumber(to), LastStep(e, from));
          return;
        }
      }
      n, k := n + 1, k + 1;
    }
  }

  /** Later occurrences start later. */
  lemma DaysIncrease(e: Event, j: int, k: int)
    requires j < k && e.recurrence != NoRecurrence
    ensures DayAt(e, j) < DayAt(e, k)
  {
    if e.recurrence == Monthly {
      MonthsApart(e.start.month + j, e.start.month + k);
    }
  }

  lemma SpanIsNotNegative(e: Event)
    requires Valid(e)
    ensures SpanDays(e) >= 0
  {
  }

  lemma SkippedSteps(days: int, span: int, step: int, j: nat)
    requires step == 7 || step == 14
    requires span >= 0 && j < days / step - span / step - 1
    ensures step * j + span < days
  {
  }

  lemma SkippedMonths(month: int, window: int, span: int, j: nat)
    requires span >= 0 && j < window - month - span / 28 - 1
    ensures MonthStart(month + j + 1) + span <= MonthStart(window)
  {
    MonthsApart(month + j + 1, window);
  }

  /** What the expansion jumps over has ended before the window starts. */
  lemma SkippedHasEnded(e: Event, from: Date, j: nat)
    requires Valid(e) && IsDate(from) && j < FirstStep(e, from) && Occurs(e, j)
    ensures DayAt(e, j) + SpanDays(e) < DayNumber(from)
  {
    SpanIsNotNegative(e);
    var span, days := SpanDays(e), DayNumber(from) - First(e).day;
    match e.recurrence
    case NoRecurrence =>
    case Weekly => SkippedSteps(days, span, 7, j);
    case Biweekly => SkippedSteps(days, span, 14, j);
    case Monthly =>
      SkippedMonths(e.start.month, from.month, span, j);
      NextMonthStart(e.start.month + j);
  }

  lemma {:induction false} NothingBeforeFirstStep(e: Event, from: Date, to: Date, k: nat)
    requires Valid(e) && IsDate(from) && k <= FirstStep(e, from)
    ensures Series(e, DayNumber(from), DayNumber(to), k) == []
  {
    if k > 0 {
      NothingBeforeFirstStep(e, from, to, k - 1);
      if Occurs(e, k - 1) {
        SkippedHasEnded(e, from, k - 1);
      }
    }
  }

  /** Once an occurrence starts after the window or the until bound, so do all later ones. */
  lemma {:induction false} NothingAfter(e: Event, from: int, to: int, k: nat, n: nat)
    requires Valid(e) && k <= n && (DayAt(e, k) > to || (e.until.Some? && DayAt(e, k) > e.until.value))
    ensures Series(e, from, to, n) == Series(e, from, to, k)
  {
    if k < n {
      NothingAfter(e, from, to, k, n - 1);
      if e.recurrence != NoRecurrence && k < n - 1 {
        DaysIncrease(e, k, n - 1);
      }
    }
  }

  lemma {:induction false} NothingAfterOnce(e: Event, from: int, to: int, n: nat)
    requires e.recurrence == NoRecurrence && n >= 1
    ensures Series(e, from, to, n) == Series(e, from, to, 1)
  {
    if n > 1 {
      NothingAfterOnce(e, from, to, n - 1);
    }
  }

  // ---------- What the expansion finds ----------

  /** Membership in the series, by the number of the occurrence. */
  lemma {:induction false} InSeries(e: Event, from: int, to: int, n: nat, o: Occurrence)
    ensures o in Series(e, from, to, n) <==>
      exists k: nat :: k < n && Counts(e, k) && Overlaps(OccurrenceAt(e, k), from, to) && o == OccurrenceAt(e, k)
  {
    if n > 0 {
      InSeries(e, from, to, n - 1, o);
    }
  }

  /** The occurrences are in order, and no two start on the same day. */
  lemma {:induction false} SeriesIsOrdered(e: Event, from: int, to: int, n: nat, i: nat, j: nat)
    requires i < j < |Series(e, from, to, n)|
    ensures Series(e, from, to, n)[i].start.day < Series(e, from, to, n)[j].start.day
  {
    var before := Series(e, from, to, n - 1);
    if j < |before| {
      SeriesIsOrdered(e, from, to, n - 1, i, j);
    } else {
      InSeries(e, from, to, n - 1, before[i]);
      var k: nat :| k < n - 1 && Counts(e, k) && before[i] == OccurrenceAt(e, k);
      assert e.recurrence != NoRecurrence;
      DaysIncrease(e, k, n - 1);
    }
  }

  // ---------- The bound on the number of steps ----------

  /** No occurrence that belongs to the window is at or behind the last step. */
  ghost predicate IsComplete(e: Event, from: Date, to: Date) {
    forall k: nat :: k >= LastStep(e, from) ==>
      !(Counts(e, k) && Overlaps(OccurrenceAt(e, k), DayNumber(from), DayNumber(to)))
  }

  lemma {:induction false} NothingBehindLastStep(e: Event, from: Date, to: Date, n: nat)
    requires IsComplete(e, from, to) && n >= LastStep(e, from)
    ensures Series(e, DayNumber(from), DayNumber(to), n) == Series(e, DayNumber(from), DayNumber(to), LastStep(e, from))
  {
    if n > LastStep(e, from) {
      NothingBehindLastStep(e, from, to, n - 1);
    }
  }

  /** The expansion is that of the whole, unbounded series just when nothing in the window is behind the last step. */
  lemma ExpansionIsComplete(e: Event, from: Date, to: Date)
    ensures IsComplete(e, from, to) <==>
      forall n: nat :: n >= LastStep(e, from) ==>
        Series(e, DayNumber(from), DayNumber(to), n) == Series(e, DayNumber(from), DayNumber(to), LastStep(e, from))
  {
    if IsComplete(e, from, to) {
      forall n: nat | n >= LastStep(e, from)
        ensures Series(e, DayNumber(from), DayNumber(to), n) ==
                Series(e, DayNumber(from), DayNumber(to), LastStep(e, from))
      {
        NothingBehindLastStep(e, from, to, n);
      }
    } else {
      var k: nat :| k >= LastStep(e, from) && Counts(e, k) &&
                    Overlaps(OccurrenceAt(e, k), DayNumber(from), DayNumber(to));
      var series := Series(e, DayNumber(from), DayNumber(to), k);
      assert Series(e, DayNumber(from), DayNumber(to), k + 1) == series + [OccurrenceAt(e, k)];
      var n := if series == Series(e, DayNumber(from), DayNumber(to), LastStep(e, from)) then k + 1 else k;
      assert Series(e, DayNumber(from), DayNumber(to), n) !=
             Series(e, DayNumber(from), DayNumber(to), LastStep(e, from));
    }
  }

  /** The occurrence at the last step would start behind the window or the until bound. */
  predicate StopsBehindWindow(e: Event, from: Date, to: Date) {
    || e.recurrence == NoRecurrence
    || DayAt(e, LastStep(e, from)) > DayNumber(to)
    || (e.until.Some? && DayAt(e, LastStep(e, from)) > e.until.value)
  }

  /** A check that can be made before expanding. */
  lemma StoppingBehindIsComplete(e: Event, from: Date, to: Date)
    requires Valid(e) && StopsBehindWindow(e, from, to)
    ensures IsComplete(e, from, to)
  {
    forall k: nat | k >= LastStep(e, from)
      ensures !(Counts(e, k) && Overlaps(OccurrenceAt(e, k), DayNumber(from), DayNumber(to)))
    {
      if e.recurrence != NoRecurrence && k > LastStep(e, from) {
        DaysIncrease(e, LastStep(e, from), k);
      }
    }
  }

  /** The bound in days for window and span together, for each kind of series. */
  function StepBound(r: Recurrence): int {
    match r
    case NoRecurrence => 0
    case Weekly => 7 * (MAX_OCCURRENCES - 1) - 6
    case Biweekly => 14 * (MAX_OCCURRENCES - 1) - 13
    case Monthly => 28 * (MAX_OCCURRENCES - 1) - 30
  }

  predicate WithinBound(e: Event, from: Date, to: Date) {
    || e.recurrence == NoRecurrence
    || (&& DayNumber(to) - DayNumber(from) + SpanDays(e) < StepBound(e.recurrence)
        && (e.recurrence == Monthly ==> SpanDays(e) < 28 * MAX_OCCURRENCES))
  }

  lemma BoundInSteps(days: int, span: int, step: int, k: int)
    requires span >= 0 && (step == 7 || step == 14) && k >= days / step - span / step - 1 + MAX_OCCURRENCES
    ensures step * k >= days - span + step * (MAX_OCCURRENCES - 1) - (step - 1)
  {
  }

  lemma BoundInMonths(month: int, window: int, span: int, k: int)
    requires 0 <= span < 28 * MAX_OCCURRENCES && k >= window - month - span / 28 - 1 + MAX_OCCURRENCES
    ensures MonthStart(month + k) >= MonthStart(window) - span + 28 * (MAX_OCCURRENCES - 1)
  {
    MonthsApart(window, month + k);
  }

  /** At or behind the last step every occurrence reaches into the window or lies behind it. */
  lemma LastStepReachesWindow(e: Event, from: Date, k: nat)
    requires Valid(e) && IsDate(from) && e.recurrence != NoRecurrence && k >= LastStep(e, from)
    requires e.recurrence == Monthly ==> SpanDays(e) < 28 * MAX_OCCURRENCES
    ensures DayAt(e, k) + SpanDays(e) >= DayNumber(from) + StepBound(e.recurrence)
  {
    SpanIsNotNegative(e);
    var days := DayNumber(from) - First(e).day;
    if e.recurrence == Monthly {
      if days <= 0 {
        MonthsApart(e.start.month, e.start.month + k);
      } else {
        BoundInMonths(e.start.month, from.month, SpanDays(e), k);
      }
    } else if days > 0 {
      BoundInSteps(days, SpanDays(e), if e.recurrence == Weekly then 7 else 14, k);
    }
  }

  lemma WithinBoundIsComplete(e: Event, from: Date, to: Date)
    requires Valid(e) && IsDate(from) && WithinBound(e, from, to)
    ensures StopsBehindWindow(e, from, to) && IsComplete(e, from, to)
  {
    if e.recurrence != NoRecurrence {
      LastStepReachesWindow(e, from, LastStep(e, from));
    }
    StoppingBehindIsComplete(e, from, to);
  }

  /** Nothing is lost just when everything from the last step on that counts starts behind the window. */
  lemma StepsBehindWindowDecide(e: Event, from: Date, to: Date)
    requires Valid(e) && IsDate(from) && e.recurrence != NoRecurrence
    requires e.recurrence == Monthly ==> SpanDays(e) < 28 * MAX_OCCURRENCES
    ensures IsComplete(e, from, to) <==>
      forall k: nat :: k >= LastStep(e, from) && Counts(e, k) ==> DayAt(e, k) > DayNumber(to)
  {
    forall k: nat | k >= LastStep(e, from)
      ensures Overlaps(OccurrenceAt(e, k), DayNumber(from), DayNumber(to)) <==> DayAt(e, k) <= DayNumber(to)
    {
      LastStepReachesWindow(e, from, k);
    }
  }

  /** A weekly event of an hour at noon, without an end. */
  function WeeklyEvent(start: Date): Event {
    Event(start, 43200, start, 46800, false, Weekly, None, {})
  }

  /** In a window of 501 months from its start on, a weekly event loses its occurrence number 2000. */
  lemma LongWindowLosesOccurrences(month: int)
    ensures var e, from, to := WeeklyEvent(Date(month, 1)), Date(month, 1), Date(month + 501, 1);
      && Valid(e) && IsDate(from) && IsDate(to) && !IsComplete(e, from, to)
      && OccurrenceAt(e, 2000) !in Series(e, DayNumber(from), DayNumber(to), LastStep(e, from))
      && OccurrenceAt(e, 2000) in Series(e, DayNumber(from), DayNumber(to), LastStep(e, from) + 1)
  {
    var e, from, to := WeeklyEvent(Date(month, 1)), Date(month, 1), Date(month + 501, 1);
    MonthsApart(month, month + 501);
    assert Counts(e, 2000) && Overlaps(OccurrenceAt(e, 2000), DayNumber(from), DayNumber(to));
    InSeries(e, DayNumber(from), DayNumber(to), LastStep(e, from), OccurrenceAt(e, 2000));
  }

  // ---------- The occurrence on a day ----------

  /** An event of no length at midnight, which overlaps no day. */
  predicate IsMidnightInstant(e: Event) {
    SpanDays(e) == 0 && Last(e).secs == 0
  }

  /** `day` is a start day of the series that is not excluded and within the until bound. */
  ghost predicate IsStartDay(e: Event, day: int) {
    exists k: nat :: Counts(e, k) && DayAt(e, k) == day
  }

  /** Looking up an occurrence by its day finds it exactly unless it has no length at midnight. */
  lemma FindsStartDays(e: Event, date: Date, from: Date, to: Date)
    requires Valid(e) && IsDate(date) && IsDate(from) && IsDate(to) && IsComplete(e, from, to)
    requires DayNumber(from) <= DayNumber(date) <= DayNumber(to)
    ensures (exists o :: o in Series(e, DayNumber(from), DayNumber(to), LastStep(e, from)) &&
                         o.start.day == DayNumber(date))
      <==> IsStartDay(e, DayNumber(date)) && (!IsMidnightInstant(e) || DayNumber(from) < DayNumber(date))
  {
    var day, n := DayNumber(date), LastStep(e, from);
    SpanIsNotNegative(e);
    if IsStartDay(e, day) && (!IsMidnightInstant(e) || DayNumber(from) < day) {
      var k: nat :| Counts(e, k) && DayAt(e, k) == day;
      var o, m := OccurrenceAt(e, k), if k < n then n else k + 1;
      assert Overlaps(o, DayNumber(from), DayNumber(to));
      InSeries(e, DayNumber(from), DayNumber(to), m, o);
      NothingBehindLastStep(e, from, to, m);
      assert o in Series(e, DayNumber(from), DayNumber(to), n) && o.start.day == day;
    }
    forall o | o in Series(e, DayNumber(from), DayNumber(to), n) && o.start.day == day
      ensures IsStartDay(e, day) && (!IsMidnightInstant(e) || DayNumber(from) < day)
    {
      InSeries(e, DayNumber(from), DayNumber(to), n, o);
    }
  }

  /** So the lookup agrees with every wider window, except on events of no length at midnight. */
  lemma LookupAgreesWithWindow(e: Event, date: Date, from: Date, to: Date)
    requires Valid(e) && IsDate(date) && IsDate(from) && IsDate(to)
    requires IsComplete(e, date, date) && IsComplete(e, from, to)
    requires DayNumber(from) <= DayNumber(date) <= DayNumber(to)
    ensures ((exists o :: o in Series(e, DayNumber(date), DayNumber(date), LastStep(e, date)) &&
                          o.start.day == DayNumber(date))
        <==> (exists o :: o in Series(e, DayNumber(from), DayNumber(to), LastStep(e, from)) &&
                          o.start.day == DayNumber(date)))
      <==> !(IsMidnightInstant(e) && IsStartDay(e, DayNumber(date)) && DayNumber(from) < DayNumber(date))
  {
    FindsStartDays(e, date, date, date);
    FindsStartDays(e, date, from, to);
  }

  /** A single event of no length at midnight. */
  function MidnightEvent(date: Date): Event {
    Event(date, 0, date, 0, false, NoRecurrence, None, {})
  }

  /** Looking up its day misses it, but a window that opens earlier holds it. */
  lemma MidnightEventIsMissed(date: Date, from: Date)
    requires IsDate(date) && IsDate(from) && DayNumber(from) < DayNumber(date)
    ensures var e, day := MidnightEvent(date), DayNumber(date);
      && Valid(e)
      && Series(e, day, day, LastStep(e, date)) == []
      && Series(e, DayNumber(from), day, LastStep(e, from)) == [Occurrence(Moment(day, 0), Moment(day, 0))]
  {
    var e, day := MidnightEvent(date), DayNumber(date);
    NothingAfterOnce(e, day, day, LastStep(e, date));
    NothingAfterOnce(e, DayNumber(from), day, LastStep(e, from));
  }

  /** Finds the occurrence on every start day of the series, except for events of no length at midnight. */
  method OccurrenceOn(e: Event, date: Date) returns (found: Option<Occurrence>)
    requires Valid(e) && IsDate(date)
    ensures found.Some? ==> exists k: nat ::
      Counts(e, k) && DayAt(e, k) == DayNumber(date) && found.value == OccurrenceAt(e, k)
    ensures IsComplete(e, date, date) ==> (found.Some? <==> IsStartDay(e, DayNumber(date)) && !IsMidnightInstant(e))
  {
    var day := DayNumber(date);
    var all := Expand(e, date, date);
    ghost var n := LastStep(e, date);
    if IsComplete(e, date, date) {
      FindsStartDays(e, date, date, date);
    }
    for i := 0 to |all|
      invariant forall o | o in all[..i] :: o.start.day != day
    {
      if all[i].start.day == day {
        InSeries(e, day, day, n, all[i]);
        return Some(all[i]);
      }
    }
    assert all[..|all|] == all;
    return None;
  }

  // ---------- What an event's own fields say ----------

  /** The days from the start of an occurrence to its end. */
  function LengthInDays(e: Event): int {
    var days := DayNumber(e.end) - DayNumber(e.start);
    if e.allDay && days < 1 then 1 else days
  }

  /** The occurrence that starts on a day, told by the dates and times that were entered. */
  function Entered(e: Event, day: int): Occurrence {
    if e.allDay then Occurrence(Moment(day, 0), Moment(day + LengthInDays(e), 0))
    else Occurrence(Moment(day, e.startSecs), Moment(day + LengthInDays(e), e.endSecs))
  }

  /** The series has a start on the day: it is in step with the first one, on the same day of a month that has it. */
  ghost predicate IsInStep(e: Event, day: int) {
    match e.recurrence
    case NoRecurrence => day == DayNumber(e.start)
    case Weekly => day >= DayNumber(e.start) && (day - DayNumber(e.start)) % 7 == 0
    case Biweekly => day >= DayNumber(e.start) && (day - DayNumber(e.start)) % 14 == 0
    case Monthly =>
      exists m :: m >= e.start.month && IsDate(Date(m, e.start.day)) && day == DayNumber(Date(m, e.start.day))
  }

  lemma StepsAreInStep(e: Event, k: nat)
    requires Valid(e) && Occurs(e, k)
    ensures IsInStep(e, DayAt(e, k))
  {
    if e.recurrence == Monthly {
      assert IsDate(Date(e.start.month + k, e.start.day));
    }
  }

  lemma InStepIsAStep(e: Event, day: int) returns (k: nat)
    requires Valid(e) && IsInStep(e, day)
    ensures Occurs(e, k) && DayAt(e, k) == day
  {
    match e.recurrence
    case NoRecurrence => k := 0;
    case Weekly => k := (day - DayNumber(e.start)) / 7;
    case Biweekly => k := (day - DayNumber(e.start)) / 14;
    case Monthly =>
      var m :| m >= e.start.month && IsDate(Date(m, e.start.day)) && day == DayNumber(Date(m, e.start.day));
      k := m - e.start.month;
  }

  /** The start days of the series: in step, not after the last day allowed, and not excluded. */
  lemma StartDaysMean(e: Event, day: int)
    requires Valid(e)
    ensures IsStartDay(e, day) <==>
      IsInStep(e, day) && (e.until.Some? ==> day <= e.until.value) && day !in e.exceptions
  {
    if IsStartDay(e, day) {
      var k: nat :| Counts(e, k) && DayAt(e, k) == day;
      StepsAreInStep(e, k);
    }
    if IsInStep(e, day) && (e.until.Some? ==> day <= e.until.value) && day !in e.exceptions {
      var k := InStepIsAStep(e, day);
      assert Counts(e, k);
    }
  }

  lemma OccurrenceIsEntered(e: Event, k: nat)
    requires Valid(e)
    ensures OccurrenceAt(e, k) == Entered(e, DayAt(e, k))
  {
  }

  /** The window takes in what starts on or before its last day and ends after the start of its first one. */
  predicate ReachesInto(e: Event, day: int, from: int, to: int) {
    var end := day + LengthInDays(e);
    day <= to && (end > from || (!e.allDay && end == from && e.endSecs > 0))
  }

  lemma OverlapMeans(e: Event, k: nat, from: int, to: int)
    requires Valid(e)
    ensures Overlaps(OccurrenceAt(e, k), from, to) <==> ReachesInto(e, DayAt(e, k), from, to)
  {
  }

  /**
   * A complete expansion in the event's own terms: it holds the occurrence entered for a day just when the day is in
   * step, allowed and not excluded, and the occurrence reaches into the window. It holds nothing else.
   */
  lemma ExpansionMeans(e: Event, from: Date, to: Date, o: Occurrence)
    requires Valid(e) && IsDate(from) && IsDate(to) && IsComplete(e, from, to)
    ensures o in Series(e, DayNumber(from), DayNumber(to), LastStep(e, from)) <==>
      && IsInStep(e, o.start.day) && (e.until.Some? ==> o.start.day <= e.until.value)
      && o.start.day !in e.exceptions
      && ReachesInto(e, o.start.day, DayNumber(from), DayNumber(to))
      && o == Entered(e, o.start.day)
  {
    var n, day := LastStep(e, from), o.start.day;
    StartDaysMean(e, day);
    InSeries(e, DayNumber(from), DayNumber(to), n, o);
    if o in Series(e, DayNumber(from), DayNumber(to), n) {
      var k: nat :| k < n && Counts(e, k) && Overlaps(OccurrenceAt(e, k), DayNumber(from), DayNumber(to)) &&
                    o == OccurrenceAt(e, k);
      OccurrenceIsEntered(e, k);
      OverlapMeans(e, k, DayNumber(from), DayNumber(to));
    }
    if IsStartDay(e, day) && ReachesInto(e, day, DayNumber(from), DayNumber(to)) && o == Entered(e, day) {
      var k: nat :| Counts(e, k) && DayAt(e, k) == day;
      OccurrenceIsEntered(e, k);
      OverlapMeans(e, k, DayNumber(from), DayNumber(to));
      assert k < n;
    }
  }

  /** An all-day event from its first to its exclusive last day, at least one day, in a window. */
  lemma AllDayEventIsFound(e: Event, from: Date, to: Date, day: int)
    requires Valid(e) && e.allDay && IsDate(from) && IsDate(to) && IsComplete(e, from, to) && IsStartDay(e, day)
    ensures var days := if DayNumber(e.end) > DayNumber(e.start) then DayNumber(e.end) - DayNumber(e.start) else 1;
      Occurrence(Moment(day, 0), Moment(day + days, 0)) in Series(e, DayNumber(from), DayNumber(to), LastStep(e, from))
      <==> day <= DayNumber(to) && day + days > DayNumber(from)
  {
    StartDaysMean(e, day);
    ExpansionMeans(e, from, to, Entered(e, day));
  }
}
