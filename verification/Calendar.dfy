/** gmtime_r and mktime as time.c runs them. time_t is an unsigned 32-bit word. */
module Calendar {
  import opened CalendarSpec

  const WORD: nat := 0x1_0000_0000

  /** __spm: the days before a month of a common year. */
  const SPM: seq<int> := [0, 31, 59, 90, 120, 151, 181, 212, 243, 273, 304, 334, 365]

  class Tm {
    var sec: nat
    var min: nat
    var hour: nat
    var mday: int
    var mon: nat
    var year: nat
    var wday: nat
    var yday: int

    ghost function Abs(): Date
      reads this
      requires mday >= 0
    {
      Date(sec, min, hour, mday, mon, year)
    }
  }

  // ----- the closed form of the leap days -----------------------------------------------------

  /** The common century years among the years from 1970 to the one `years` later, that year excluded:
      what mktime takes off again. */
  function CenturyDays(years: nat): int {
    if years < 131 then 0
    else
      var c := (years - 131) / 100;
      c / 4 * 3 + 1 + (if c % 4 == 3 then 2 else c % 4)
  }

  function ClosedDays(years: nat): int {
    years * 365 + (years + 1) / 4 - CenturyDays(years)
  }

  lemma FourthYear(years: nat)
    ensures (years + 2) / 4 - (years + 1) / 4 == if (1970 + years) % 4 == 0 then 1 else 0
  {
  }

  /** A century count grows by one in every hundred years, every fourth time by nothing. */
  lemma CenturyStep(c: nat)
    ensures var f := (x: int) => x / 4 * 3 + 1 + (if x % 4 == 3 then 2 else x % 4);
      f(c + 1) - f(c) == if (c + 1) % 4 == 3 then 0 else 1
  {
    if c % 4 == 3 { assert (c + 1) / 4 == c / 4 + 1 && (c + 1) % 4 == 0; }
    else { assert (c + 1) / 4 == c / 4 && (c + 1) % 4 == c % 4 + 1; }
  }

  lemma CenturyYear(years: nat)
    ensures CenturyDays(years + 1) - CenturyDays(years) ==
      if (1970 + years) % 100 == 0 && (1970 + years) % 400 != 0 then 1 else 0
  {
    if years >= 131 {
      CenturyLater((years - 131) / 100, (years - 131) % 100);
    } else if years == 130 {
      assert CenturyDays(131) == 1;
    } else if (1970 + years) % 100 == 0 {
      assert years == 30;
    }
  }

  lemma CenturyLater(c: nat, r: nat)
    requires r < 100
    ensures var years := 131 + 100 * c + r;
      CenturyDays(years + 1) - CenturyDays(years) ==
        if (1970 + years) % 100 == 0 && (1970 + years) % 400 != 0 then 1 else 0
  {
    var years := 131 + 100 * c + r;
    assert (years - 131) / 100 == c;
    if r == 99 {
      assert (years + 1 - 131) / 100 == c + 1 && 1970 + years == 100 * (22 + c);
      FourHundred(22 + c);
      CenturyFourth(c);
      CenturyStep(c);
    } else {
      assert (years + 1 - 131) / 100 == c && (1970 + years) % 100 == r + 1;
    }
  }

  lemma CenturyFourth(c: nat)
    ensures (22 + c) % 4 == 0 <==> (c + 1) % 4 == 3
  {
  }

  lemma FourHundred(h: nat)
    ensures 100 * h % 100 == 0 && (100 * h % 400 == 0 <==> h % 4 == 0)
  {
    assert 100 * h == 400 * (h / 4) + 100 * (h % 4);
  }

  /** Every fourth year has a leap day, but common century years do not. */
  lemma LeapRule(year: nat)
    ensures YearDays(year) ==
      365 + (if year % 4 == 0 then 1 else 0) - (if year % 100 == 0 && year % 400 != 0 then 1 else 0)
  {
    Multiples(year);
  }

  lemma Multiples(year: nat)
    ensures year % 100 == 0 ==> year % 4 == 0
    ensures year % 400 == 0 ==> year % 100 == 0
  {
    if year % 100 == 0 { assert year == 4 * (25 * (year / 100)); }
    if year % 400 == 0 { assert year == 100 * (4 * (year / 400)); }
  }

  lemma OneYear(years: nat)
    ensures ClosedDays(years + 1) - ClosedDays(years) == YearDays(1970 + years)
  {
    hide CenturyDays, YearDays;
    FourthYear(years);
    CenturyYear(years);
    LeapRule(1970 + years);
  }

  /** The closed form of mktime is the sum, year by year, of 365 or 366 days, for every year from 1970 on. */
  lemma {:induction false} ClosedForm(years: nat)
    ensures ClosedDays(years) == DaysBefore(1970 + years)
    decreases years
  {
    if years > 0 {
      hide ClosedDays, YearDays;
      ClosedForm(years - 1);
      OneYear(years - 1);
    }
  }

  /** The cumulative table gives the day of the year, with the leap day counted after February. */
  lemma TableDays(year: nat, mon: nat)
    requires mon <= 12
    ensures SPM[mon] + (if IsLeap(year) && mon > 1 then 1 else 0) == DaysBeforeMonth(year, mon)
  {
    MonthSums(year);
  }

  // ----- mktime -------------------------------------------------------------------------------

  /** The day count of mktime for a year, by the closed form. */
  method DaysOfYears(n: nat) returns (day: int)
    ensures day == DaysBefore(1970 + n)
  {
    ClosedForm(n);
    var years := n;
    day := years * 365 + (years + 1) / 4;
    if years >= 131 {
      years := years - 131;
      years := years / 100;
      day := day - (years / 4 * 3 + 1);
      years := years % 4;
      if years == 3 { years := years - 1; }
      day := day - years;
    }
  }

  /** mktime of a date in range, whose day count fits a word: its seconds modulo 2^32, or the error
      value before 1970. The week day and the day of the year are filled in. */
  method Mktime(t: Tm) returns (r: nat)
    requires t.mday >= 0 && InRange(t.Abs()) && (t.year >= 70 ==> DayNumber(t.Abs()) + 4 < WORD)
    modifies t`wday, t`yday
    ensures t.Abs() == old(t.Abs())
    ensures t.year < 70 ==> r == WORD - 1
    ensures t.year >= 70 ==>
      r == Seconds(t.Abs()) % 0x1_0000_0000 && t.yday == YearDay(t.Abs()) && t.wday == WeekDay(DayNumber(t.Abs()))
  {
    if t.year < 70 { return WORD - 1; }
    var day := DaysOfYears(t.year - 70);
    TableDays(1900 + t.year, t.mon);
    t.yday := SPM[t.mon] + t.mday - 1 + (if IsLeap(t.year + 1900) && t.mon > 1 then 1 else 0);
    day := day + t.yday;
    t.wday := (day + 4) % 7;
    day := day * 24;
    r := (((day + t.hour) * 60 + t.min) * 60 + t.sec) % 0x1_0000_0000;
  }

  // ----- gmtime_r -----------------------------------------------------------------------------

  /** The year loop of gmtime_r. */
  method FindYear(days: nat) returns (i: nat, work: nat)
    ensures (i, work) == YearOf(1970, days) && i >= 1970
  {
    i, work := 1970, days;
    while true
      invariant i >= 1970 && YearOf(i, work) == YearOf(1970, days)
      decreases work
    {
      var k := if IsLeap(i) then 366 else 365;
      if work >= k { work := work - k; } else { break; }
      i := i + 1;
    }
  }

  /** The month search of gmtime_r: the day of a year as month and day of the month. */
  method FindMonth(year: nat, yday: nat) returns (mon: nat, mday: int)
    requires yday < YearDays(year)
    ensures mon < 12 && 1 <= mday <= MonthDays(year, mon) && DaysBeforeMonth(year, mon) + mday - 1 == yday
  {
    var work := yday;
    mday := 1;
    if IsLeap(year) && work > 58 {
      if work == 59 { mday := 2; }
      work := work - 1;
    }
    mon := 11;
    while mon != 0 && SPM[mon] > work
      invariant mon < 12 && work < SPM[mon + 1]
    {
      mon := mon - 1;
    }
    mday := mday + work - SPM[mon];
    TableDays(year, mon);
    TableDays(year, mon + 1);
  }

  /** The time of day. */
  method SetClock(time: nat, r: Tm)
    modifies r`sec, r`min, r`hour
    ensures r.sec == time % 60 && r.min == time % 86400 / 60 % 60 && r.hour == time % 86400 / 3600
  {
    var work := time % 86400;
    assert work % 60 == time % 60 && work / 60 / 60 == work / 3600;
    r.sec := work % 60;
    work := work / 60;
    r.min := work % 60;
    r.hour := work / 60;
  }

  /** gmtime_r: the date of a moment, with week day and day of the year. */
  method Gmtime(time: nat, r: Tm)
    requires time < WORD
    modifies r
    ensures r.mday >= 0 && r.Abs() == DateOf(time)
    ensures r.yday == YearDay(r.Abs()) && r.year >= 70 && r.wday == WeekDay(DayNumber(r.Abs()))
  {
    hide DateOf, YearOf, MonthOf, DayNumber, YearDay;
    SetClock(time, r);
    var work := time / 86400;
    r.wday := (4 + work) % 7;
    var i;
    i, work := FindYear(work);
    r.year := i - 1900;
    r.yday := work;
    r.mon, r.mday := FindMonth(i, work);
    DateFound(time, i, work, r.mon, r.mday);
  }

  lemma DateFound(time: nat, year: nat, yday: nat, mon: nat, mday: nat)
    requires (year, yday) == YearOf(1970, time / 86400) && year >= 1970
    requires mon < 12 && 1 <= mday <= MonthDays(year, mon) && DaysBeforeMonth(year, mon) + mday - 1 == yday
    ensures var d := Date(time % 60, time % 86400 / 60 % 60, time % 86400 / 3600, mday, mon, year - 1900);
      d == DateOf(time) && yday == YearDay(d) && DayNumber(d) == time / 86400
  {
    assert MonthOf(year, 0, yday) == (mon, mday - 1) by { MonthOfFinds(year, 0, mon, mday - 1); }
    assert DayNumber(DateOf(time)) == time / 86400 by { SecondsOfDate(time); }
    hide Seconds, MonthDays, YearOf, MonthOf, DaysBefore, DaysBeforeMonth;
  }

  /** What mktime and gmtime_r compute are inverse: a moment converted to a date and back is the same
      moment; a date converted to a moment and back is the same date exactly when it has no leap second
      and its moment fits time_t. */
  lemma RoundTrip(time: nat, d: Date)
    requires time < WORD && InRange(d) && d.year >= 70
    ensures Seconds(DateOf(time)) % 0x1_0000_0000 == time
    ensures Seconds(d) >= 0 && (DateOf(Seconds(d) % 0x1_0000_0000) == d <==> d.sec < 60 && Seconds(d) < WORD)
  {
    hide DateOf, Seconds;
    SecondsOfDate(time);
    DateOfSeconds(d);
    SecondsOfDate(Seconds(d) % 0x1_0000_0000);
  }
}
