/** Known dates and the calendar behind moment's constants. */
module MomentCalendar {
  import opened MomentWeeks
  import opened MomentDuration

  // ----- weekdays

  /** 1970-01-01 was a Thursday, 2000-02-29 a Tuesday and 2016-01-01 a Friday. */
  lemma KnownDays()
    ensures DayNumber(1970, 1) == 0 && WeekDay(DayNumber(1970, 1)) == 4
    ensures WeekDay(DayNumber(2000, 60)) == 2 && WeekDay(DayNumber(2016, 1)) == 5
  {
  }

  /** The rule of ISO 8601, dow 1 and doy 4: a week starts on Monday and belongs to the year that holds its Thursday,
      counted from the day 1970-01-01, a Thursday. */
  lemma ThursdayRule(year: int, dayOfYear: int)
    requires 1 <= dayOfYear <= DaysInYear(year)
    ensures var day := DayNumber(year, dayOfYear);
      var thursday := day - (day + 3) % 7 + 3;
      var y := WeekOfYear(year, dayOfYear, 1, 4);
      && DayFromYear(y.year) <= thursday < DayFromYear(y.year + 1)
      && y.week == (thursday - DayFromYear(y.year)) / 7 + 1
  {
    hide DayFromYear, IsLeapYear, FirstWeekOffset, WeekOfYear, WeeksInYear, WeekDay;
    var y := WeekOfYear(year, dayOfYear, 1, 4);
    var day := DayNumber(year, dayOfYear);
    WeekHoldsDay(year, dayOfYear, 1, 4);
    StartOfWeekYear(y.year, 1, 4);
    StartOfWeekYear(y.year + 1, 1, 4);
    WeeksAreWhole(y.year, 1, 4);
    MondayOf(day, WeekYearStart(y.year, 1, 4), y.week);
  }

  lemma MondayOf(day: int, start: int, week: int)
    requires WeekDay(start) == 1 && 0 <= day - start - 7 * (week - 1) < 7
    ensures day - (day + 3) % 7 == start + 7 * (week - 1)
  {
    var d := day - start - 7 * (week - 1);
    assert (start + 3) % 7 == 0;
    assert (day + 3) % 7 == d by {
      WholeWeek(start + 3, week - 1, d);
    }
  }

  lemma WholeWeek(a: int, weeks: int, d: int)
    requires a % 7 == 0 && 0 <= d < 7
    ensures (a + 7 * weeks + d) % 7 == d
  {
  }

  // ----- days and months

  /** The calendar repeats after 400 years, which have 146097 days and 4800 months. */
  lemma FourHundredYears(year: int)
    ensures DayFromYear(year + 400) - DayFromYear(year) == 146097 && 400 * 12 == 4800
  {
    Hundreds(year - 1969, 4, 100);
    Hundreds(year - 1901, 100, 4);
    Hundreds(year - 1601, 400, 1);
  }

  lemma Hundreds(n: int, k: int, c: int)
    requires k > 0 && k * c == 400
    ensures (n + 400) / k == n / k + c
  {
    var q, r := n / k, n % k;
    assert n + 400 == k * q + r + k * c == k * (q + c) + r;
    SameQuotient(n + 400, k, q + c, r);
  }

  /** Months become days by the mean length of a month in the calendar, rounded away from zero. */
  lemma MonthsToDays(months: int, days: int, year: int)
    ensures var cycle := DayFromYear(year + 400) - DayFromYear(year);
      && (months >= 0 ==> 4800 * (DaysOfMonths(months) - 1) < months * cycle <= 4800 * DaysOfMonths(months))
      && (months <= 0 ==> 4800 * DaysOfMonths(months) <= months * cycle < 4800 * (DaysOfMonths(months) + 1))
      && (months * cycle + 4800 * days >= 0 ==>
            4800 * (DaysOfAll(months, days) - 1) < months * cycle + 4800 * days <= 4800 * DaysOfAll(months, days))
      && (months * cycle + 4800 * days <= 0 ==>
            4800 * DaysOfAll(months, days) <= months * cycle + 4800 * days < 4800 * (DaysOfAll(months, days) + 1))
  {
    hide DayFromYear;
    FourHundredYears(year);
    CeilBounds(months * 146097, 4800);
    CeilBounds(months * 146097 + days * 4800, 4800);
  }

  lemma CeilBounds(n: int, d: int)
    requires d == 4800
    ensures n >= 0 ==> d * (AbsCeil(n, d) - 1) < n <= d * AbsCeil(n, d)
    ensures n <= 0 ==> d * AbsCeil(n, d) <= n < d * (AbsCeil(n, d) + 1)
  {
  }

  /** Days become months by the same length, rounded toward zero. */
  lemma DaysToMonths(days: int, year: int)
    ensures var cycle := DayFromYear(year + 400) - DayFromYear(year);
      && (days >= 0 ==> MonthsFromDays(days) * cycle <= 4800 * days < (MonthsFromDays(days) + 1) * cycle)
      && (days <= 0 ==> (MonthsFromDays(days) - 1) * cycle < 4800 * days <= MonthsFromDays(days) * cycle)
  {
    hide DayFromYear;
    FourHundredYears(year);
    FloorBounds(days * 4800);
  }

  lemma FloorBounds(n: int)
    ensures n >= 0 ==> AbsFloor(n, 146097) * 146097 <= n < (AbsFloor(n, 146097) + 1) * 146097
    ensures n <= 0 ==> (AbsFloor(n, 146097) - 1) * 146097 < n <= AbsFloor(n, 146097) * 146097
  {
  }
}
