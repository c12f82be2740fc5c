/** The civil calendar, counted day by day: what gmtime_r and mktime of time.c are measured against. */
module CalendarSpec {
  /** struct tm without the fields the code leaves alone: months from 0, years from 1900. */
  datatype Date = Date(sec: nat, min: nat, hour: nat, mday: nat, mon: nat, year: nat)

  /** __isleap. */
  predicate IsLeap(year: nat) {
    year % 4 == 0 && (year % 100 != 0 || year % 400 == 0)
  }

  function YearDays(year: nat): nat {
    if IsLeap(year) then 366 else 365
  }

  /** The days of the years from 1970 up to, but not including, a year. */
  function DaysBefore(year: nat): nat
    requires year >= 1970
  {
    if year == 1970 then 0 else DaysBefore(year - 1) + YearDays(year - 1)
  }

  function MonthDays(year: nat, mon: nat): nat
    requires mon < 12
  {
    if mon == 1 then (if IsLeap(year) then 29 else 28)
    else if mon == 3 || mon == 5 || mon == 8 || mon == 10 then 30
    else 31
  }

  function DaysBeforeMonth(year: nat, mon: nat): nat
    requires mon <= 12
  {
    if mon == 0 then 0 else DaysBeforeMonth(year, mon - 1) + MonthDays(year, mon - 1)
  }

  /** Every field in its range; a leap second is one. */
  predicate InRange(d: Date) {
    && d.sec <= 60 && d.min < 60 && d.hour < 24 && d.mon < 12
    && 1 <= d.mday <= MonthDays(1900 + d.year, d.mon)
  }

  /** The day of the year, from 0. */
  function YearDay(d: Date): int
    requires d.mon < 12
  {
    DaysBeforeMonth(1900 + d.year, d.mon) + d.mday - 1
  }

  /** Days since the first of January 1970. */
  function DayNumber(d: Date): int
    requires d.mon < 12 && d.year >= 70
  {
    DaysBefore(1900 + d.year) + YearDay(d)
  }

  /** Seconds since the first of January 1970. */
  function Seconds(d: Date): int
    requires d.mon < 12 && d.year >= 70
  {
    ((DayNumber(d) * 24 + d.hour) * 60 + d.min) * 60 + d.sec
  }

  /** Sunday is 0; the count starts on a Thursday. */
  function WeekDay(day: nat): nat {
    (day + 4) % 7
  }

  /** The year that `days` days from the start of `year` on fall in, and the day of that year. */
  function YearOf(year: nat, days: nat): (r: (nat, nat))
    ensures r.0 >= year && r.1 < YearDays(r.0)
    decreases days
  {
    if days < YearDays(year) then (year, days) else YearOf(year + 1, days - YearDays(year))
  }

  /** The month a day of the year falls in, and the day of that month from 0. */
  function MonthOf(year: nat, mon: nat, days: nat): (r: (nat, nat))
    requires mon < 12 && days < DaysBeforeMonth(year, 12) - DaysBeforeMonth(year, mon)
    ensures mon <= r.0 < 12 && r.1 < MonthDays(year, r.0)
    decreases 12 - mon
  {
    if days < MonthDays(year, mon) then (mon, days)
    else MonthOf(year, mon + 1, days - MonthDays(year, mon))
  }

  lemma WholeYear(year: nat)
    ensures DaysBeforeMonth(year, 12) == YearDays(year)
  {
    MonthSums(year);
  }

  /** The cumulative days of the months, written out. */
  lemma MonthSums(year: nat)
    ensures var l := if IsLeap(year) then 1 else 0;
      && DaysBeforeMonth(year, 0) == 0 && DaysBeforeMonth(year, 1) == 31 && DaysBeforeMonth(year, 2) == 59 + l
      && DaysBeforeMonth(year, 3) == 90 + l && DaysBeforeMonth(year, 4) == 120 + l && DaysBeforeMonth(year, 5) == 151 + l
      && DaysBeforeMonth(year, 6) == 181 + l && DaysBeforeMonth(year, 7) == 212 + l && DaysBeforeMonth(year, 8) == 243 + l
      && DaysBeforeMonth(year, 9) == 273 + l && DaysBeforeMonth(year, 10) == 304 + l && DaysBeforeMonth(year, 11) == 334 + l
      && DaysBeforeMonth(year, 12) == 365 + l
  {
    hide IsLeap;
    assert DaysBeforeMonth(year, 1) == DaysBeforeMonth(year, 0) + 31;
    assert DaysBeforeMonth(year, 2) == DaysBeforeMonth(year, 1) + MonthDays(year, 1);
    assert DaysBeforeMonth(year, 4) == DaysBeforeMonth(year, 3) + 30;
    assert DaysBeforeMonth(year, 6) == DaysBeforeMonth(year, 5) + 30;
    assert DaysBeforeMonth(year, 8) == DaysBeforeMonth(year, 7) + 31;
    assert DaysBeforeMonth(year, 10) == DaysBeforeMonth(year, 9) + 31;
  }

  /** The date of a moment. */
  function DateOf(t: nat): Date {
    var y := YearOf(1970, t / 86400);
    WholeYear(y.0);
    var m := MonthOf(y.0, 0, y.1);
    Date(t % 60, t % 86400 / 60 % 60, t % 86400 / 3600, m.1 + 1, m.0, y.0 - 1900)
  }

  // ----- the two counts are inverse -----------------------------------------------------------

  lemma {:induction false} YearOfCounts(year: nat, days: nat)
    requires year >= 1970
    ensures var r := YearOf(year, days); DaysBefore(r.0) + r.1 == DaysBefore(year) + days
    decreases days
  {
    if days >= YearDays(year) { YearOfCounts(year + 1, days - YearDays(year)); }
  }

  lemma {:induction false} MonthOfCounts(year: nat, mon: nat, days: nat)
    requires mon < 12 && days < DaysBeforeMonth(year, 12) - DaysBeforeMonth(year, mon)
    ensures var r := MonthOf(year, mon, days); DaysBeforeMonth(year, r.0) + r.1 == DaysBeforeMonth(year, mon) + days
    decreases 12 - mon
  {
    if days >= MonthDays(year, mon) { MonthOfCounts(year, mon + 1, days - MonthDays(year, mon)); }
  }

  lemma {:induction false} YearOfFinds(year: nat, target: nat, day: nat)
    requires 1970 <= year <= target && day < YearDays(target)
    ensures DaysBefore(target) >= DaysBefore(year)
    ensures YearOf(year, DaysBefore(target) - DaysBefore(year) + day) == (target, day)
    decreases target - year
  {
    if year < target { YearOfFinds(year + 1, target, day); }
  }

  lemma {:induction false} MonthOfFinds(year: nat, mon: nat, target: nat, day: nat)
    requires mon <= target < 12 && day < MonthDays(year, target)
    ensures var n := DaysBeforeMonth(year, target) - DaysBeforeMonth(year, mon) + day;
      0 <= n < DaysBeforeMonth(year, 12) - DaysBeforeMonth(year, mon) && MonthOf(year, mon, n) == (target, day)
    decreases target - mon
  {
    MonthsAdd(year, mon, target);
    if mon < target {
      hide MonthDays;
      MonthOfFinds(year, mon + 1, target, day);
    }
  }

  lemma {:induction false} MonthsAdd(year: nat, mon: nat, target: nat)
    requires mon <= target < 12
    ensures DaysBeforeMonth(year, mon) <= DaysBeforeMonth(year, target)
    ensures DaysBeforeMonth(year, target) + MonthDays(year, target) <= DaysBeforeMonth(year, 12)
    ensures mon < target ==> DaysBeforeMonth(year, mon) + MonthDays(year, mon) <= DaysBeforeMonth(year, target)
  {
    MonthSums(year);
    hide IsLeap;
  }

  lemma Div60(q: nat, r: nat)
    requires r < 60
    ensures (q * 60 + r) / 60 == q && (q * 60 + r) % 60 == r
  {
  }

  lemma Div86400(q: nat, r: nat)
    requires r < 86400
    ensures (q * 86400 + r) / 86400 == q && (q * 86400 + r) % 86400 == r
  {
  }

  lemma Hours(w: nat)
    requires w < 86400
    ensures w / 60 / 60 == w / 3600 < 24
  {
  }

  lemma Minutes(t: nat)
    ensures t % 86400 % 60 == t % 60
  {
  }

  lemma ClockSplits(t: nat)
    ensures ((t / 86400 * 24 + t % 86400 / 3600) * 60 + t % 86400 / 60 % 60) * 60 + t % 60 == t
    ensures t % 86400 / 3600 < 24
  {
    var w := t % 86400;
    Minutes(t);
    Hours(w);
    assert w == w / 60 * 60 + w % 60;
    assert w / 60 == w / 60 / 60 * 60 + w / 60 % 60;
    assert t == t / 86400 * 86400 + w;
  }

  /** Every moment has a date in range, and counting that date's seconds gives the moment back. */
  lemma SecondsOfDate(t: nat)
    ensures var d := DateOf(t); InRange(d) && d.sec < 60 && d.year >= 70 && Seconds(d) == t && DayNumber(d) == t / 86400
  {
    var y := YearOf(1970, t / 86400);
    WholeYear(y.0);
    YearOfCounts(1970, t / 86400);
    MonthOfCounts(y.0, 0, y.1);
    ClockSplits(t);
  }

  lemma ClockJoins(day: nat, hour: nat, min: nat, sec: nat)
    requires hour < 24 && min < 60 && sec < 60
    ensures var t := ((day * 24 + hour) * 60 + min) * 60 + sec;
      t / 86400 == day && t % 86400 / 3600 == hour && t % 86400 / 60 % 60 == min && t % 60 == sec
  {
    var w := (hour * 60 + min) * 60 + sec;
    var t := ((day * 24 + hour) * 60 + min) * 60 + sec;
    assert t == day * 86400 + w;
    Div86400(day, w);
    Div60((day * 24 + hour) * 60 + min, sec);
    Div60(hour * 60 + min, sec);
    Div60(hour, min);
    Hours(w);
  }

  /** The date of a date's seconds is that date, leap seconds apart: those are the next minute's first. */
  lemma DateOfSeconds(d: Date)
    requires InRange(d) && d.year >= 70
    ensures Seconds(d) >= 0 && (DateOf(Seconds(d)) == d <==> d.sec < 60)
  {
    if d.sec < 60 {
      var y := 1900 + d.year;
      ClockJoins(DayNumber(d), d.hour, d.min, d.sec);
      MonthOfFinds(y, 0, d.mon, d.mday - 1);
      WholeYear(y);
      YearOfFinds(1970, y, YearDay(d));
    } else {
      SecondsOfDate(Seconds(d));
    }
  }

  // ----- the calendar on the wall -------------------------------------------------------------

  /** The day after a date: the next one of the month, or the first of the next month or year. */
  function Tomorrow(d: Date): Date
    requires d.mon < 12
  {
    var long := d.mon in {0, 2, 4, 6, 7, 9, 11};
    var last :=
      if long then 31
      else if d.mon != 1 then 30
      else if (1900 + d.year) % 400 == 0 || ((1900 + d.year) % 4 == 0 && (1900 + d.year) % 100 != 0) then 29
      else 28;
    if d.mday < last then d.(mday := d.mday + 1)
    else if d.mon < 11 then d.(mday := 1, mon := d.mon + 1)
    else d.(mday := 1, mon := 0, year := d.year + 1)
  }

  lemma TomorrowCounts(d: Date)
    requires InRange(d) && d.year >= 70
    ensures InRange(Tomorrow(d)) && Tomorrow(d).year >= 70 && Seconds(Tomorrow(d)) == Seconds(d) + 86400
  {
    MonthSums(1900 + d.year);
    Leap400(1900 + d.year);
    assert Seconds(Tomorrow(d)) - Seconds(d) == (DayNumber(Tomorrow(d)) - DayNumber(d)) * 86400;
  }

  lemma Leap400(year: nat)
    ensures year % 400 == 0 ==> year % 4 == 0
  {
    assert year % 400 == 0 ==> year == 4 * (100 * (year / 400));
  }

  /** One day later the clock shows the same, the date is the next one, and so is the day of the week. */
  lemma NextDay(t: nat)
    ensures DateOf(t).mon < 12 && DateOf(t + 86400) == Tomorrow(DateOf(t))
    ensures WeekDay((t + 86400) / 86400) == if WeekDay(t / 86400) == 6 then 0 else WeekDay(t / 86400) + 1
  {
    hide DateOf, Seconds, MonthDays, Tomorrow;
    SecondsOfDate(t);
    TomorrowCounts(DateOf(t));
    TomorrowClock(DateOf(t));
    DateOfSeconds(Tomorrow(DateOf(t)));
    assert (t + 86400) / 86400 == t / 86400 + 1;
  }

  lemma TomorrowClock(d: Date)
    requires d.mon < 12
    ensures Tomorrow(d).sec == d.sec && Tomorrow(d).min == d.min && Tomorrow(d).hour == d.hour
  {
  }

  /** The count starts on Thursday, the first of January 1970, at midnight. */
  lemma FirstDay()
    ensures DateOf(0) == Date(0, 0, 0, 1, 0, 70) && WeekDay(0) == 4
  {
  }

  /** Later Saturdays and Thursdays: the first of January 2000, and the 29th of February 2024. */
  lemma KnownDays()
    ensures var d := Date(0, 0, 0, 1, 0, 100); DayNumber(d) == 10957 && WeekDay(DayNumber(d)) == 6
    ensures var d := Date(0, 0, 0, 29, 1, 124); DayNumber(d) == 19782 && WeekDay(DayNumber(d)) == 4
  {
    FourYears(1970, 7);
    FourYears(1970, 13);
    assert DaysBefore(2000) == DaysBefore(1998) + 730;
    assert DaysBefore(2024) == DaysBefore(2022) + 730;
    MonthSums(2000);
    MonthSums(2024);
  }

  /** Four years of this century or the last have 1461 days. */
  lemma {:induction false} FourYears(year: nat, n: nat)
    requires 1970 <= year && year + 4 * n < 2100
    ensures DaysBefore(year + 4 * n) == DaysBefore(year) + 1461 * n
    decreases n
  {
    if n > 0 {
      var y := year + 4 * (n - 1);
      FourYears(year, n - 1);
      OneInFour(y);
      assert DaysBefore(y + 1) == DaysBefore(y) + YearDays(y);
      assert DaysBefore(y + 2) == DaysBefore(y + 1) + YearDays(y + 1);
      assert DaysBefore(y + 3) == DaysBefore(y + 2) + YearDays(y + 2);
      assert DaysBefore(y + 4) == DaysBefore(y + 3) + YearDays(y + 3);
    }
  }

  lemma OneInFour(y: nat)
    requires 1970 <= y < 2097
    ensures YearDays(y) + YearDays(y + 1) + YearDays(y + 2) + YearDays(y + 3) == 1461
  {
    forall x: nat | 1970 <= x <= 2099 ensures IsLeap(x) <==> x % 4 == 0 {
      if x % 100 == 0 { assert x == 2000; }
    }
  }
}
