/** The Gregorian calendar: months counted from January of year 0, days from 1 January of year 0. */
module Calendar {

  predicate IsLeap(year: int) {
    year % 4 == 0 && (year % 100 != 0 || year % 400 == 0)
  }

  function MonthLength(month: int): (days: int)
    ensures 28 <= days <= 31
  {
    var m := month % 12;
    if m == 1 then (if IsLeap(month / 12) then 29 else 28)
    else if m == 3 || m == 5 || m == 8 || m == 10 then 30
    else 31
  }

  /** The first day of a month. */
  function MonthStart(month: int): int
    decreases if month < 0 then -month else month
  {
    if month == 0 then 0
    else if month > 0 then MonthStart(month - 1) + MonthLength(month - 1)
    else MonthStart(month + 1) - MonthLength(month)
  }

  lemma NextMonthStart(month: int)
    ensures MonthStart(month + 1) == MonthStart(month) + MonthLength(month)
  {
  }

  /** Months are at least 28 and at most 31 days apart. */
  lemma {:induction false} MonthsApart(a: int, b: int)
    requires a <= b
    ensures 28 * (b - a) <= MonthStart(b) - MonthStart(a) <= 31 * (b - a)
    decreases b - a
  {
    if a < b {
      MonthsApart(a, b - 1);
      NextMonthStart(b - 1);
    }
  }

  lemma LaterMonthsStartLater(a: int, b: int)
    requires a <= b
    ensures MonthStart(a) <= MonthStart(b)
    ensures a < b ==> MonthStart(a) < MonthStart(b)
  {
    MonthsApart(a, b);
  }

  /** The month a day is in. */
  function MonthOf(day: int): int
    decreases if day < 0 then -day else day
  {
    if day == 0 then 0
    else if day > 0 then
      var m := MonthOf(day - 1);
      if day < MonthStart(m + 1) then m else m + 1
    else
      var m := MonthOf(day + 1);
      if day >= MonthStart(m) then m else m - 1
  }

  lemma {:induction false} MonthOfContains(day: int)
    ensures MonthStart(MonthOf(day)) <= day < MonthStart(MonthOf(day) + 1)
    decreases if day < 0 then -day else day
  {
    if day == 0 {
      NextMonthStart(0);
    } else {
      var near := if day > 0 then day - 1 else day + 1;
      MonthOfContains(near);
      NeighbourIsNear(MonthOf(near), near, day);
      MonthOfNeighbour(day, near);
    }
  }

  lemma MonthOfNeighbour(day: int, near: int)
    requires day != 0 && near == if day > 0 then day - 1 else day + 1
    ensures MonthOf(day) ==
      if day >= MonthStart(MonthOf(near) + 1) && day > 0 then MonthOf(near) + 1
      else if day < MonthStart(MonthOf(near)) && day < 0 then MonthOf(near) - 1 else MonthOf(near)
  {
    var m := MonthOf(near);
    if day > 0 {
      assert MonthOf(day) == if day < MonthStart(m + 1) then m else m + 1;
    } else {
      assert MonthOf(day) == if day >= MonthStart(m) then m else m - 1;
    }
  }

  lemma NeighbourIsNear(m: int, near: int, day: int)
    requires MonthStart(m) <= near < MonthStart(m + 1) && -1 <= day - near <= 1
    ensures MonthStart(m - 1) <= day < MonthStart(m + 2)
  {
    MonthsApart(m - 1, m);
    MonthsApart(m + 1, m + 2);
  }

  lemma MonthOfIsUnique(day: int, month: int)
    requires MonthStart(month) <= day < MonthStart(month + 1)
    ensures MonthOf(day) == month
  {
    var m := MonthOf(day);
    MonthOfContains(day);
    if m < month {
      MonthsApart(m + 1, month);
    } else if month < m {
      MonthsApart(month + 1, m);
    }
  }

  /** A calendar date; `day` counts from 1. */
  datatype Date = Date(month: int, day: int)

  predicate IsDate(d: Date) {
    1 <= d.day <= MonthLength(d.month)
  }

  function DayNumber(d: Date): int {
    MonthStart(d.month) + d.day - 1
  }

  /** The lengths of the months of a year, from January on. */
  function LengthsOfYear(leap: bool): seq<int> {
    [31, if leap then 29 else 28, 31, 30, 31, 30, 31, 31, 30, 31, 30, 31]
  }

  lemma LengthOfMonth(year: int, m: nat)
    requires m < 12
    ensures MonthLength(12 * year + m) == LengthsOfYear(IsLeap(year))[m]
  {
    assert (12 * year + m) % 12 == m && (12 * year + m) / 12 == year;
  }

  lemma LeapYears()
    ensures IsLeap(2000) && IsLeap(2024) && IsLeap(2400) && !IsLeap(1900) && !IsLeap(2100) && !IsLeap(2023)
    ensures !IsLeap(2022) && !IsLeap(2025)
  {
  }

  function DaysBefore(leap: bool, m: nat): int
    requires m <= 12
  {
    if m == 0 then 0 else DaysBefore(leap, m - 1) + LengthsOfYear(leap)[m - 1]
  }

  lemma {:induction false} MonthsOfYear(year: int, m: nat)
    requires m <= 12
    ensures MonthStart(12 * year + m) == MonthStart(12 * year) + DaysBefore(IsLeap(year), m)
  {
    if m > 0 {
      MonthsOfYear(year, m - 1);
      LengthOfMonth(year, m - 1);
      NextMonthStart(12 * year + m - 1);
    }
  }

  lemma DaysInAll(leap: bool)
    ensures DaysBefore(leap, 12) == if leap then 366 else 365
  {
    var february := LengthsOfYear(leap)[1];
    assert DaysBefore(leap, 1) == DaysBefore(leap, 0) + 31;
    assert DaysBefore(leap, 2) == 31 + february;
    assert DaysBefore(leap, 4) == 92 + february;
    assert DaysBefore(leap, 6) == 153 + february;
    assert DaysBefore(leap, 8) == 215 + february;
    assert DaysBefore(leap, 10) == 276 + february;
  }

  lemma LengthOfYear(year: int)
    ensures MonthStart(12 * year + 12) - MonthStart(12 * year) == if IsLeap(year) then 366 else 365
  {
    MonthsOfYear(year, 12);
    DaysInAll(IsLeap(year));
  }
}
