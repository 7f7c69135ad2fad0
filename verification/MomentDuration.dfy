/** moment's durations: carrying milliseconds, days and months into larger units, in exact arithmetic. */
module MomentDuration {

  // ----- division that rounds toward zero, and away from zero

  function AbsFloor(n: int, d: int): int
    requires d > 0
  {
    if n < 0 then -(-n / d) else n / d
  }

  function AbsCeil(n: int, d: int): int
    requires d > 0
  {
    if n < 0 then -((-n + d - 1) / d) else (n + d - 1) / d
  }

  /** The remainder of JavaScript, with the sign of the dividend. */
  function Rem(n: int, d: int): int
    requires d > 0
  {
    if n < 0 then -(-n % d) else n % d
  }

  /** absFloor(daysToMonths(days)): 4800 months have 146097 days. */
  function MonthsFromDays(days: int): int {
    AbsFloor(days * 4800, 146097)
  }

  /** absCeil(monthsToDays(months)) */
  function DaysOfMonths(months: int): int {
    AbsCeil(months * 146097, 4800)
  }

  /** absCeil(monthsToDays(months) + days) */
  function DaysOfAll(months: int, days: int): int {
    AbsCeil(months * 146097 + days * 4800, 4800)
  }

  datatype Fields = Fields(milliseconds: int, seconds: int, minutes: int, hours: int, days: int, months: int, years: int)

  predicate OneSign(milliseconds: int, days: int, months: int) {
    || (milliseconds >= 0 && days >= 0 && months >= 0)
    || (milliseconds <= 0 && days <= 0 && months <= 0)
  }

  const DAY_MS := 86400000

  /** The milliseconds that remain below a day, as the fields hold them. */
  function TimeOfDay(f: Fields): int {
    f.milliseconds + 1000 * (f.seconds + 60 * (f.minutes + 60 * f.hours))
  }

  /** The fields in their ranges, and all of one sign. */
  ghost predicate Normalized(f: Fields) {
    && -1000 < f.milliseconds < 1000 && -60 < f.seconds < 60 && -60 < f.minutes < 60 && -24 < f.hours < 24
    && -30 <= f.days <= 30 && -12 < f.months < 12
    && (|| (f.milliseconds >= 0 && f.seconds >= 0 && f.minutes >= 0 && f.hours >= 0 && f.days >= 0 && f.months >= 0 && f.years >= 0)
        || (f.milliseconds <= 0 && f.seconds <= 0 && f.minutes <= 0 && f.hours <= 0 && f.days <= 0 && f.months <= 0 && f.years <= 0))
  }

  /** What bubbling must keep: the milliseconds, split at whole days, and days exchanged for months only. */
  ghost predicate Keeps(f: Fields, milliseconds: int, days: int, months: int) {
    exists carry: int, exchanged: int {:trigger Exchanges(f, milliseconds, days, months, carry, exchanged)} ::
      Exchanges(f, milliseconds, days, months, carry, exchanged)
  }

  ghost predicate Exchanges(f: Fields, milliseconds: int, days: int, months: int, carry: int, exchanged: int) {
    && TimeOfDay(f) + DAY_MS * carry == milliseconds
    && f.months + 12 * f.years == months + exchanged
    && f.days + DaysOfMonths(exchanged) == days + carry
    && MostMonths(exchanged, days + carry)
  }

  /** No more whole months fit into the days. */
  ghost predicate MostMonths(months: int, days: int) {
    if days >= 0 then 0 <= months && DaysOfMonths(months) <= days < DaysOfMonths(months + 1)
    else months <= 0 && DaysOfMonths(months - 1) < days <= DaysOfMonths(months)
  }

  /** What a duration is made from: every unit that is given, or 0. */
  datatype Units = Units(years: int, quarters: int, months: int, weeks: int, days: int,
                         hours: int, minutes: int, seconds: int, milliseconds: int)

  function MillisecondsOf(u: Units): int {
    u.milliseconds + 1000 * u.seconds + 60000 * u.minutes + 3600000 * u.hours
  }

  /** The units without quarters and weeks as fields. */
  function FieldsOf(u: Units): Fields {
    Fields(u.milliseconds, u.seconds, u.minutes, u.hours, u.days, u.months, u.years)
  }

  lemma TimeOfUnits(u: Units)
    ensures TimeOfDay(FieldsOf(u)) == MillisecondsOf(u)
  {
  }

  lemma NormalizedSign(f: Fields)
    requires Normalized(f)
    ensures OneSign(TimeOfDay(f), f.days, f.months + 12 * f.years)
  {
  }

  class Duration {
    const milliseconds: int
    const days: int
    const months: int
    var data: Fields

    /** A duration of the given units. The fields that bubbling has made give the same fields again. */
    constructor (u: Units)
      ensures milliseconds == MillisecondsOf(u) && days == u.days + 7 * u.weeks
      ensures months == u.months + 3 * u.quarters + 12 * u.years
      ensures Normalized(data)
      ensures if OneSign(milliseconds, days, months) then Keeps(data, milliseconds, days, months) && SignOf(data, milliseconds)
              else Keeps(data, milliseconds + DaysOfAll(months, days) * DAY_MS, 0, 0)
      ensures u.quarters == 0 && u.weeks == 0 && Normalized(FieldsOf(u)) ==> data == FieldsOf(u)
    {
      milliseconds := u.milliseconds + u.seconds * 1000 + u.minutes * 60000 + u.hours * 1000 * 60 * 60;
      days := u.days + u.weeks * 7;
      months := u.months + u.quarters * 3 + u.years * 12;
      data := Fields(0, 0, 0, 0, 0, 0, 0);
      new;
      hide Normalized, DaysOfAll, Keeps, SignOf, OneSign, TimeOfDay;
      Bubble();
      TimeOfUnits(u);
      if u.quarters == 0 && u.weeks == 0 && Normalized(FieldsOf(u)) {
        NormalizedSign(FieldsOf(u));
        NormalizedStays(FieldsOf(u), data);
      }
    }

    /** Mixed signs go down to milliseconds first; then everything is carried up. */
    method Bubble()
      modifies this`data
      ensures Normalized(data)
      ensures OneSign(milliseconds, days, months) ==> SignOf(data, milliseconds)
      ensures if OneSign(milliseconds, days, months) then Keeps(data, milliseconds, days, months)
              else Keeps(data, milliseconds + DaysOfAll(months, days) * DAY_MS, 0, 0)
    {
      hide MonthsFromDays, DaysOfMonths, DaysOfAll;
      var ms, d, m := milliseconds, days, months;
      if !OneSign(ms, d, m) {
        ms := ms + DaysOfAll(m, d) * DAY_MS;
        d := 0;
        m := 0;
      }
      ghost var ms0, d0, m0 := ms, d, m;
      data := data.(milliseconds := Rem(ms, 1000));
      var seconds := AbsFloor(ms, 1000);
      data := data.(seconds := Rem(seconds, 60));
      var minutes := AbsFloor(seconds, 60);
      data := data.(minutes := Rem(minutes, 60));
      var hours := AbsFloor(minutes, 60);
      data := data.(hours := Rem(hours, 24));
      var carry := AbsFloor(hours, 24);
      d := d + carry;
      var monthsFromDays := MonthsFromDays(d);
      m := m + monthsFromDays;
      ghost var d1 := d;
      d := d - DaysOfMonths(monthsFromDays);
      var years := AbsFloor(m, 12);
      ghost var m1 := m;
      m := Rem(m, 12);
      data := data.(days := d, months := m, years := years);
      Carried(ms0, 1000);
      Carried(seconds, 60);
      Carried(minutes, 60);
      Carried(hours, 24);
      Carried(m1, 12);
      DaysLeft(d1);
      assert Exchanges(data, ms0, d0, m0, carry, monthsFromDays);
    }
  }

  /** Division toward zero and its remainder: nothing is lost, and the signs agree. */
  lemma Carried(n: int, d: int)
    requires d > 0
    ensures n == d * AbsFloor(n, d) + Rem(n, d) && -d < Rem(n, d) < d
    ensures n >= 0 ==> AbsFloor(n, d) >= 0 && Rem(n, d) >= 0
    ensures n <= 0 ==> AbsFloor(n, d) <= 0 && Rem(n, d) <= 0
  {
    var p := if n < 0 then -n else n;
    DivMod(p, d);
    assert d * -(p / d) == -(d * (p / d));
  }

  lemma DivMod(p: nat, d: int)
    requires d > 0
    ensures p == d * (p / d) + p % d && p / d >= 0 && 0 <= p % d < d
  {
  }

  /** As many whole months as fit are taken out, and at most 30 days are left. */
  lemma DaysLeft(days: int)
    ensures var left := days - DaysOfMonths(MonthsFromDays(days));
      && -30 <= left <= 30
      && (days >= 0 ==> left >= 0 && MonthsFromDays(days) >= 0)
      && (days <= 0 ==> left <= 0 && MonthsFromDays(days) <= 0)
    ensures MostMonths(MonthsFromDays(days), days)
  {
  }

  // ----- the fields are determined by what is kept

  lemma DaysAscend(x: int, y: int)
    requires x < y
    ensures DaysOfMonths(x) + 30 <= DaysOfMonths(y)
  {
  }

  lemma SameMonths(x: int, y: int, days: int)
    requires MostMonths(x, days) && MostMonths(y, days)
    ensures x == y
  {
    hide DaysOfMonths;
    if x < y {
      MonthsApart(x, y, days);
    } else if y < x {
      MonthsApart(y, x, days);
    }
  }

  lemma MonthsApart(x: int, y: int, days: int)
    requires x < y
    ensures !(MostMonths(x, days) && MostMonths(y, days))
  {
    hide DaysOfMonths;
    if x + 1 < y {
      DaysAscend(x + 1, y);
      DaysAscend(x, y - 1);
    }
  }

  /** The time fields that are not negative are the digits of the time. */
  lemma TimeDigits(f: Fields)
    requires Normalized(f) && f.milliseconds >= 0 && f.seconds >= 0 && f.minutes >= 0 && f.hours >= 0
    ensures var t := TimeOfDay(f);
      && f.milliseconds == t % 1000 && f.seconds == t / 1000 % 60
      && f.minutes == t / 1000 / 60 % 60 && f.hours == t / 1000 / 60 / 60
      && 0 <= t < DAY_MS
  {
    var t := TimeOfDay(f);
    assert t / 1000 == f.seconds + 60 * (f.minutes + 60 * f.hours);
    assert t / 1000 / 60 == f.minutes + 60 * f.hours;
  }

  function Negated(f: Fields): Fields {
    Fields(-f.milliseconds, -f.seconds, -f.minutes, -f.hours, -f.days, -f.months, -f.years)
  }

  lemma SameTime(f: Fields, g: Fields)
    requires Normalized(f) && Normalized(g) && TimeOfDay(f) == TimeOfDay(g)
    ensures f.milliseconds == g.milliseconds && f.seconds == g.seconds && f.minutes == g.minutes && f.hours == g.hours
  {
    Signed(f);
    Signed(g);
    hide Normalized;
    if TimeOfDay(f) >= 0 {
      TimeDigits(f);
      TimeDigits(g);
    } else {
      TimeDigits(Negated(f));
      TimeDigits(Negated(g));
    }
  }

  lemma Signed(f: Fields)
    requires Normalized(f)
    ensures Normalized(Negated(f))
    ensures TimeOfDay(f) >= 0 ==> f.milliseconds >= 0 && f.seconds >= 0 && f.minutes >= 0 && f.hours >= 0
    ensures TimeOfDay(f) <= 0 ==> f.milliseconds <= 0 && f.seconds <= 0 && f.minutes <= 0 && f.hours <= 0
  {
  }

  lemma TimeBelowDay(f: Fields)
    requires Normalized(f)
    ensures -DAY_MS < TimeOfDay(f) < DAY_MS
  {
  }

  /** Only one way to write a duration of one sign in normalized fields of that sign keeps it. */
  lemma FieldsAreUnique(f: Fields, g: Fields, milliseconds: int, days: int, months: int)
    requires OneSign(milliseconds, days, months) && Normalized(f) && Normalized(g)
    requires Keeps(f, milliseconds, days, months) && Keeps(g, milliseconds, days, months)
    requires SignOf(f, milliseconds) && SignOf(g, milliseconds)
    ensures f == g
  {
    hide Normalized, DaysOfMonths, TimeOfDay;
    var c: int, x: int :| Exchanges(f, milliseconds, days, months, c, x);
    var d: int, y: int :| Exchanges(g, milliseconds, days, months, d, y);
    TimeBelowDay(f);
    TimeBelowDay(g);
    SameCarry(TimeOfDay(f), TimeOfDay(g), c, d, milliseconds);
    SameTime(f, g);
    SameMonths(x, y, days + c);
    SameYears(f, g);
  }

  /** The time is not carried past zero. */
  ghost predicate SignOf(f: Fields, milliseconds: int) {
    if milliseconds >= 0 then TimeOfDay(f) >= 0 else TimeOfDay(f) <= 0
  }

  lemma SameCarry(s: int, t: int, c: int, d: int, milliseconds: int)
    requires s + DAY_MS * c == milliseconds == t + DAY_MS * d && -DAY_MS < s < DAY_MS && -DAY_MS < t < DAY_MS
    requires if milliseconds >= 0 then s >= 0 && t >= 0 else s <= 0 && t <= 0
    ensures s == t && c == d
  {
  }

  lemma SameYears(f: Fields, g: Fields)
    requires Normalized(f) && Normalized(g) && f.months + 12 * f.years == g.months + 12 * g.years
    ensures f.months == g.months && f.years == g.years
  {
  }

  /** Bubbling fields that are normalized already changes nothing. */
  lemma NormalizedStays(f: Fields, g: Fields)
    requires Normalized(f) && Normalized(g)
    requires Keeps(g, TimeOfDay(f), f.days, f.months + 12 * f.years) && SignOf(g, TimeOfDay(f))
    ensures OneSign(TimeOfDay(f), f.days, f.months + 12 * f.years) && f == g
  {
    assert Exchanges(f, TimeOfDay(f), f.days, f.months + 12 * f.years, 0, 0);
    FieldsAreUnique(f, g, TimeOfDay(f), f.days, f.months + 12 * f.years);
  }
}
