/** moment's week dates: numbering days by week year, week and weekday. */
module MomentWeeks {

  /** dow: the first day of the week, 0 for Sunday. doy: fixes which days of January are always in week 1. */
  ghost predicate IsWeekRule(dow: int, doy: int) {
    0 <= dow < 7 && 1 <= 7 + dow - doy <= 7
  }

  predicate IsLeapYear(year: int) {
    (year % 4 == 0 && year % 100 != 0) || year % 400 == 0
  }

  function DaysInYear(year: int): int {
    if IsLeapYear(year) then 366 else 365
  }

  // ----- the calendar: section 15.9.1 of ECMAScript 5.1

  /** The number of the first day of the year; 1970-01-01 has number 0. */
  function DayFromYear(year: int): int {
    365 * (year - 1970) + (year - 1969) / 4 - (year - 1901) / 100 + (year - 1601) / 400
  }

  function WeekDay(day: int): int {
    (day + 4) % 7
  }

  lemma Quotients(year: int, k: int)
    requires k > 0
    ensures (year + 1) / k == year / k + if (year + 1) % k == 0 then 1 else 0
  {
    var q, r := year / k, year % k;
    assert year == k * q + r;
    if r + 1 == k {
      SameQuotient(year + 1, k, q + 1, 0);
    } else {
      SameQuotient(year + 1, k, q, r + 1);
    }
  }

  lemma SameQuotient(n: int, k: int, q: int, r: int)
    requires k > 0 && 0 <= r < k && n == k * q + r
    ensures n / k == q && n % k == r
  {
    var q1, r1 := n / k, n % k;
    assert n == k * q1 + r1;
    if q1 < q {
      Apart(k, q1, q, r1);
    } else if q < q1 {
      Apart(k, q, q1, r);
    }
  }

  lemma Apart(k: int, a: int, b: int, r: int)
    requires a < b && 0 <= r < k
    ensures k * a + r < k * b
  {
    assert k * (a + 1) <= k * b;
  }

  /** Consecutive years follow each other without gaps. */
  lemma NextYear(year: int)
    ensures DayFromYear(year + 1) == DayFromYear(year) + DaysInYear(year)
  {
    Quotients(year - 1969, 4);
    Quotients(year - 1901, 100);
    Quotients(year - 1601, 400);
    ByFour(year);
    ByHundred(year);
    ByFourHundred(year);
  }

  lemma ByFour(year: int)
    ensures (year - 1969 + 1) % 4 == 0 <==> year % 4 == 0
  {
  }

  lemma ByHundred(year: int)
    ensures (year - 1901 + 1) % 100 == 0 <==> year % 100 == 0
    ensures year % 100 == 0 ==> year % 4 == 0
  {
  }

  lemma ByFourHundred(year: int)
    ensures (year - 1601 + 1) % 400 == 0 <==> year % 400 == 0
    ensures year % 400 == 0 ==> year % 100 == 0
  {
  }

  // ----- the week functions

  /** Start of the first week, counted from the start of the year. */
  function FirstWeekOffset(year: int, dow: int, doy: int): int {
    var fwd := 7 + dow - doy;
    var fwdlw := (7 + WeekDay(DayFromYear(year) + fwd - 1) - dow) % 7;
    -fwdlw + fwd - 1
  }

  function WeeksInYear(year: int, dow: int, doy: int): int {
    (DaysInYear(year) - FirstWeekOffset(year, dow, doy) + FirstWeekOffset(year + 1, dow, doy)) / 7
  }

  datatype YearDay = YearDay(year: int, dayOfYear: int)

  datatype YearWeek = YearWeek(year: int, week: int)

  function DayOfYearFromWeeks(year: int, week: int, weekday: int, dow: int, doy: int): YearDay {
    var localWeekday := (7 + weekday - dow) % 7;
    var dayOfYear := 1 + 7 * (week - 1) + localWeekday + FirstWeekOffset(year, dow, doy);
    if dayOfYear <= 0 then YearDay(year - 1, DaysInYear(year - 1) + dayOfYear)
    else if dayOfYear > DaysInYear(year) then YearDay(year + 1, dayOfYear - DaysInYear(year))
    else YearDay(year, dayOfYear)
  }

  function WeekOfYear(year: int, dayOfYear: int, dow: int, doy: int): YearWeek {
    var week := (dayOfYear - FirstWeekOffset(year, dow, doy) - 1) / 7 + 1;
    if week < 1 then YearWeek(year - 1, week + WeeksInYear(year - 1, dow, doy))
    else if week > WeeksInYear(year, dow, doy) then YearWeek(year + 1, week - WeeksInYear(year, dow, doy))
    else YearWeek(year, week)
  }

  // ----- the first week

  /** The number of the first day of the first week of a year. */
  function WeekYearStart(year: int, dow: int, doy: int): int {
    DayFromYear(year) + FirstWeekOffset(year, dow, doy)
  }

  /** The number of the day that a date names. */
  function DayNumber(year: int, dayOfYear: int): int {
    DayFromYear(year) + dayOfYear - 1
  }

  /** Every week year starts on the first day of a week, less than a week around the start of the year. */
  lemma StartOfWeekYear(year: int, dow: int, doy: int)
    requires IsWeekRule(dow, doy)
    ensures WeekDay(WeekYearStart(year, dow, doy)) == dow
    ensures 7 + dow - doy - 7 <= FirstWeekOffset(year, dow, doy) <= 7 + dow - doy - 1
  {
    var fwd := 7 + dow - doy;
    var day := DayFromYear(year) + fwd - 1;
    var fwdlw := (7 + WeekDay(day) - dow) % 7;
    assert WeekYearStart(year, dow, doy) == day - fwdlw;
    LocalWeekday(day, dow);
  }

  /** Going back by the local weekday leads to the first day of the week. */
  lemma LocalWeekday(day: int, dow: int)
    requires 0 <= dow < 7
    ensures WeekDay(day - (7 + WeekDay(day) - dow) % 7) == dow
  {
  }

  /** Between two first days of weeks there are whole weeks. */
  lemma WholeWeeks(a: int, b: int)
    requires WeekDay(a) == WeekDay(b)
    ensures (b - a) % 7 == 0
  {
  }

  /** A week year has 52 or 53 whole weeks. */
  lemma WeeksAreWhole(year: int, dow: int, doy: int)
    requires IsWeekRule(dow, doy)
    ensures WeekYearStart(year + 1, dow, doy) == WeekYearStart(year, dow, doy) + 7 * WeeksInYear(year, dow, doy)
    ensures WeeksInYear(year, dow, doy) == 52 || WeeksInYear(year, dow, doy) == 53
  {
    hide DayFromYear, FirstWeekOffset, IsLeapYear, WeekDay;
    StartOfWeekYear(year, dow, doy);
    StartOfWeekYear(year + 1, dow, doy);
    NextYear(year);
    WholeWeeks(WeekYearStart(year, dow, doy), WeekYearStart(year + 1, dow, doy));
  }

  /** A day that lies in a week year, by the number of whole weeks since its start. */
  ghost predicate InWeek(day: int, y: YearWeek, dow: int, doy: int) {
    && 1 <= y.week <= WeeksInYear(y.year, dow, doy)
    && 0 <= day - WeekYearStart(y.year, dow, doy) - 7 * (y.week - 1) < 7
  }

  /** weekOfYear finds the week that holds the day, across both boundaries of the year. */
  lemma WeekHoldsDay(year: int, dayOfYear: int, dow: int, doy: int)
    requires IsWeekRule(dow, doy) && 1 <= dayOfYear <= DaysInYear(year)
    ensures InWeek(DayNumber(year, dayOfYear), WeekOfYear(year, dayOfYear, dow, doy), dow, doy)
  {
    hide DayFromYear, FirstWeekOffset, IsLeapYear, WeekDay, WeeksInYear;
    StartOfWeekYear(year, dow, doy);
    StartOfWeekYear(year - 1, dow, doy);
    StartOfWeekYear(year + 1, dow, doy);
    WeeksAreWhole(year - 1, dow, doy);
    WeeksAreWhole(year, dow, doy);
    WeeksAreWhole(year + 1, dow, doy);
    NextYear(year - 1);
    NextYear(year);
  }

  /** The weeks of all week years follow each other, so a day lies in one week only. */
  lemma WeekIsUnique(day: int, x: YearWeek, y: YearWeek, dow: int, doy: int)
    requires IsWeekRule(dow, doy) && InWeek(day, x, dow, doy) && InWeek(day, y, dow, doy)
    ensures x == y
  {
    hide WeekYearStart, WeeksInYear;
    if x.year < y.year {
      StartsAscend(x.year + 1, y.year, dow, doy);
      WeeksAreWhole(x.year, dow, doy);
    } else if y.year < x.year {
      StartsAscend(y.year + 1, x.year, dow, doy);
      WeeksAreWhole(y.year, dow, doy);
    }
  }

  lemma {:induction false} StartsAscend(x: int, y: int, dow: int, doy: int)
    requires IsWeekRule(dow, doy) && x <= y
    ensures WeekYearStart(x, dow, doy) <= WeekYearStart(y, dow, doy)
    decreases y - x
  {
    hide WeekYearStart, WeeksInYear;
    if x < y {
      WeeksAreWhole(x, dow, doy);
      StartsAscend(x + 1, y, dow, doy);
    }
  }

  /** dayOfYearFromWeeks names the day with the given weekday in the given week. */
  lemma DayInWeek(y: YearWeek, weekday: int, dow: int, doy: int)
    requires IsWeekRule(dow, doy) && 0 <= weekday < 7 && 1 <= y.week <= WeeksInYear(y.year, dow, doy)
    ensures var d := DayOfYearFromWeeks(y.year, y.week, weekday, dow, doy);
      && 1 <= d.dayOfYear <= DaysInYear(d.year)
      && WeekDay(DayNumber(d.year, d.dayOfYear)) == weekday
      && InWeek(DayNumber(d.year, d.dayOfYear), y, dow, doy)
  {
    hide DayFromYear, FirstWeekOffset, IsLeapYear, WeekDay, WeeksInYear;
    StartOfWeekYear(y.year, dow, doy);
    StartOfWeekYear(y.year + 1, dow, doy);
    WeeksAreWhole(y.year, dow, doy);
    NextYear(y.year - 1);
    NextYear(y.year);
    WeekdayAfter(WeekYearStart(y.year, dow, doy), dow, y.week - 1, weekday);
  }

  lemma WeekdayAfter(start: int, dow: int, weeks: int, weekday: int)
    requires WeekDay(start) == dow && 0 <= weekday < 7
    ensures WeekDay(start + 7 * weeks + (7 + weekday - dow) % 7) == weekday
  {
  }

  /** In one week every weekday occurs once. */
  lemma SameDay(a: int, b: int, y: YearWeek, dow: int, doy: int)
    requires InWeek(a, y, dow, doy) && InWeek(b, y, dow, doy) && WeekDay(a) == WeekDay(b)
    ensures a == b
  {
    hide WeekYearStart, WeeksInYear;
  }

  lemma {:induction false} YearsAscend(x: int, y: int)
    requires x <= y
    ensures DayFromYear(x) <= DayFromYear(y)
    decreases y - x
  {
    hide DayFromYear;
    if x < y {
      NextYear(x);
      YearsAscend(x + 1, y);
    }
  }

  /** Different dates name different days. */
  lemma DateIsUnique(d: YearDay, e: YearDay)
    requires 1 <= d.dayOfYear <= DaysInYear(d.year) && 1 <= e.dayOfYear <= DaysInYear(e.year)
    requires DayNumber(d.year, d.dayOfYear) == DayNumber(e.year, e.dayOfYear)
    ensures d == e
  {
    hide DayFromYear, IsLeapYear;
    NextYear(d.year);
    NextYear(e.year);
    if d.year < e.year {
      YearsAscend(d.year + 1, e.year);
    } else if e.year < d.year {
      YearsAscend(e.year + 1, d.year);
    }
  }

  /** From a date to its week and weekday and back. */
  lemma DateToWeekToDate(year: int, dayOfYear: int, dow: int, doy: int)
    requires IsWeekRule(dow, doy) && 1 <= dayOfYear <= DaysInYear(year)
    ensures var y := WeekOfYear(year, dayOfYear, dow, doy);
      DayOfYearFromWeeks(y.year, y.week, WeekDay(DayNumber(year, dayOfYear)), dow, doy) == YearDay(year, dayOfYear)
  {
    hide DayFromYear, FirstWeekOffset, IsLeapYear, WeeksInYear, WeekOfYear, DayOfYearFromWeeks, DayNumber, WeekYearStart;
    var y := WeekOfYear(year, dayOfYear, dow, doy);
    var day := DayNumber(year, dayOfYear);
    WeekHoldsDay(year, dayOfYear, dow, doy);
    DayInWeek(y, WeekDay(day), dow, doy);
    var d := DayOfYearFromWeeks(y.year, y.week, WeekDay(day), dow, doy);
    SameDay(DayNumber(d.year, d.dayOfYear), day, y, dow, doy);
    DateIsUnique(d, YearDay(year, dayOfYear));
  }

  /** From a week and weekday to the date and back. */
  lemma WeekToDateToWeek(y: YearWeek, weekday: int, dow: int, doy: int)
    requires IsWeekRule(dow, doy) && 0 <= weekday < 7 && 1 <= y.week <= WeeksInYear(y.year, dow, doy)
    ensures var d := DayOfYearFromWeeks(y.year, y.week, weekday, dow, doy);
      WeekOfYear(d.year, d.dayOfYear, dow, doy) == y
  {
    hide DayFromYear, FirstWeekOffset, IsLeapYear, WeeksInYear, WeekOfYear, DayOfYearFromWeeks, DayNumber, WeekDay, WeekYearStart;
    var d := DayOfYearFromWeeks(y.year, y.week, weekday, dow, doy);
    DayInWeek(y, weekday, dow, doy);
    WeekHoldsDay(d.year, d.dayOfYear, dow, doy);
    WeekIsUnique(DayNumber(d.year, d.dayOfYear), WeekOfYear(d.year, d.dayOfYear, dow, doy), y, dow, doy);
  }

  /** The day of January that the rule fixes is in week 1 of its own year. */
  lemma FixedDayInWeekOne(year: int, dow: int, doy: int)
    requires IsWeekRule(dow, doy)
    ensures WeekOfYear(year, 7 + dow - doy, dow, doy) == YearWeek(year, 1)
  {
    hide DayFromYear, WeeksInYear, IsLeapYear, FirstWeekOffset;
    StartOfWeekYear(year, dow, doy);
    WeeksAreWhole(year, dow, doy);
  }
}
