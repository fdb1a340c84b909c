/** Calendar conversions of `sntp_service.c`, and the mapping to and from the clock chip's fields. */
module Calendar {
  import opened Bytes
  import Bits

  const EPOCH_YEAR := 1970
  const SECONDS_PER_DAY := 86400
  const UINT32_MAX := 0xFFFF_FFFF

  predicate IsLeapYear(year: nat) {
    year % 4 == 0 && (year % 100 != 0 || year % 400 == 0)
  }

  function DaysInYear(year: nat): nat {
    if IsLeapYear(year) then 366 else 365
  }

  function DaysInMonth(year: nat, month: nat): (d: nat)
    requires month < 12
    ensures 28 <= d <= 31
  {
    [31, 28, 31, 30, 31, 30, 31, 31, 30, 31, 30, 31][month] + (if month == 1 && IsLeapYear(year) then 1 else 0)
  }

  /** Days from the epoch to the start of a year. */
  function DaysBeforeYear(year: nat): nat {
    if year <= EPOCH_YEAR then 0 else DaysBeforeYear(year - 1) + DaysInYear(year - 1)
  }

  function DaysBeforeMonth(year: nat, month: nat): nat
    requires month <= 12
  {
    if month == 0 then 0 else DaysBeforeMonth(year, month - 1) + DaysInMonth(year, month - 1)
  }

  /** `struct tm`; only the fields the code uses. Years count from 1900, months and weekdays from 0. */
  datatype Tm = Tm(sec: int, min: int, hour: int, mday: int, mon: int, year: int, wday: int, yday: int, isdst: int)

  predicate IsTimeOfDay(tm: Tm) {
    0 <= tm.hour <= 23 && 0 <= tm.min <= 59 && 0 <= tm.sec <= 59
  }

  predicate IsDate(tm: Tm) {
    tm.year >= 70 && 0 <= tm.mon <= 11 && 1 <= tm.mday <= DaysInMonth(tm.year + 1900, tm.mon)
  }

  function DayOfYear(tm: Tm): nat
    requires IsDate(tm)
  {
    DaysBeforeMonth(tm.year + 1900, tm.mon) + tm.mday - 1
  }

  function Day(tm: Tm): nat
    requires IsDate(tm)
  {
    DaysBeforeYear(tm.year + 1900) + DayOfYear(tm)
  }

  /** The second a calendar time names. */
  function Seconds(tm: Tm): nat
    requires IsDate(tm) && IsTimeOfDay(tm)
  {
    Day(tm) * SECONDS_PER_DAY + tm.hour * 3600 + tm.min * 60 + tm.sec
  }

  // ---- sums of days

  lemma YearIsMonths(year: nat)
    ensures DaysBeforeMonth(year, 12) == DaysInYear(year)
  {
    var leap := DaysInYear(year) - 365;
    assert DaysBeforeMonth(year, 1) == 31;
    assert DaysBeforeMonth(year, 2) == 59 + leap;
    assert DaysBeforeMonth(year, 3) == 90 + leap;
    assert DaysBeforeMonth(year, 5) == 151 + leap;
    assert DaysBeforeMonth(year, 7) == 212 + leap;
    assert DaysBeforeMonth(year, 9) == 273 + leap;
    assert DaysBeforeMonth(year, 11) == 334 + leap;
  }

  /** The Gregorian calendar: 31 and 30 days in turn, but July and August both 31, and February 28 or 29. */
  lemma MonthsAreGregorian(year: nat, month: nat)
    requires month < 12
    ensures month != 1 ==> DaysInMonth(year, month) == 31 - (month + month / 7) % 2
    ensures DaysInMonth(year, 1) == DaysInYear(year) - 337
  {
  }

  /** Leap years up to `y`: every fourth, but not every hundredth, but every four-hundredth. */
  function LeapYears(y: nat): int {
    y / 4 - y / 100 + y / 400
  }

  /** A day more for every leap year since the epoch. */
  lemma {:induction false} YearsAreGregorian(year: nat)
    requires year >= EPOCH_YEAR
    ensures DaysBeforeYear(year) == 365 * (year - EPOCH_YEAR) + LeapYears(year - 1) - LeapYears(1969)
  {
    hide LeapYears, DaysInYear;
    if year > EPOCH_YEAR {
      YearsAreGregorian(year - 1);
      OneMoreLeapYear(year - 1);
    }
  }

  lemma OneMoreLeapYear(y: nat)
    requires y >= 1
    ensures LeapYears(y) == LeapYears(y - 1) + DaysInYear(y) - 365
  {
    OneMore(y, 4);
    OneMore(y, 100);
    OneMore(y, 400);
    LeapSteps(y);
    hide DaysInYear;
  }

  lemma OneMore(y: nat, m: nat)
    requires y >= 1 && m >= 1
    ensures y / m == (y - 1) / m + (if y % m == 0 then 1 else 0)
  {
    var q, r := y / m, y % m;
    assert y == q * m + r;
    if r == 0 {
      assert y - 1 == (q - 1) * m + (m - 1);
      DivisionIs(y - 1, m, q - 1, m - 1);
    } else {
      DivisionIs(y - 1, m, q, r - 1);
    }
  }

  lemma DivisionIs(x: int, m: nat, q: int, r: int)
    requires m >= 1 && x == q * m + r && 0 <= r < m
    ensures x / m == q
  {
    var d := q - x / m;
    assert d * m == x % m - r;
    Bits.AwayFromZero(d, m);
  }

  lemma LeapSteps(y: nat)
    ensures DaysInYear(y) == 365 + (if y % 4 == 0 then 1 else 0) - (if y % 100 == 0 then 1 else 0) + (if y % 400 == 0 then 1 else 0)
  {
    MultipleOf100(y);
    MultipleOf400(y);
  }

  lemma MultipleOf100(y: nat)
    ensures y % 100 == 0 ==> y % 4 == 0
  {
    var z := 25 * (y / 100);
    assert y % 100 == 0 ==> y == 4 * z;
  }

  lemma MultipleOf400(y: nat)
    ensures y % 400 == 0 ==> y % 100 == 0
  {
    var z := 4 * (y / 400);
    assert y % 400 == 0 ==> y == 100 * z;
  }

  lemma {:induction false} MonthsGrow(year: nat, m: nat, n: nat)
    requires m < n <= 12
    ensures DaysBeforeMonth(year, m) + DaysInMonth(year, m) <= DaysBeforeMonth(year, n)
  {
    if m + 1 < n {
      MonthsGrow(year, m, n - 1);
    }
  }

  lemma {:induction false} YearsGrow(x: nat, y: nat)
    requires EPOCH_YEAR <= x < y
    ensures DaysBeforeYear(x) + DaysInYear(x) <= DaysBeforeYear(y)
    ensures DaysBeforeYear(y) >= DaysBeforeYear(x) + 365 * (y - x)
  {
    if x + 1 < y {
      YearsGrow(x, y - 1);
    }
  }

  lemma DayOfYearFits(tm: Tm)
    requires IsDate(tm)
    ensures DayOfYear(tm) < DaysInYear(tm.year + 1900)
  {
    hide DaysInMonth, DaysBeforeMonth;
    MonthsGrow(tm.year + 1900, tm.mon, 12);
    YearIsMonths(tm.year + 1900);
  }

  /** A day belongs to one year, month and day of the month only. */
  lemma DateIsUnique(a: Tm, b: Tm)
    requires IsDate(a) && IsDate(b) && Day(a) == Day(b)
    ensures a.year == b.year && a.mon == b.mon && a.mday == b.mday
  {
    hide DaysInMonth, DaysBeforeMonth, DaysBeforeYear, DaysInYear;
    DayOfYearFits(a);
    DayOfYearFits(b);
    if a.year < b.year {
      YearsGrow(a.year + 1900, b.year + 1900);
    } else if b.year < a.year {
      YearsGrow(b.year + 1900, a.year + 1900);
    }
    if a.mon < b.mon {
      MonthsGrow(a.year + 1900, a.mon, b.mon);
    } else if b.mon < a.mon {
      MonthsGrow(a.year + 1900, b.mon, a.mon);
    }
  }

  /** Seconds of a day determine hour, minute and second. */
  lemma TimeOfDayIsUnique(d: nat, h: nat, m: nat, s: nat, t: nat)
    requires h <= 23 && m <= 59 && s <= 59 && t == d * SECONDS_PER_DAY + h * 3600 + m * 60 + s
    ensures s == t % 60 && m == t / 60 % 60 && h == t / 60 / 60 % 24 && d == t / 60 / 60 / 24
  {
    assert t / 60 == d * 1440 + h * 60 + m;
    assert t / 60 / 60 == d * 24 + h;
  }

  // ---- the conversions

  method GmTime(timer: u32) returns (r: Option<Tm>)
    ensures r.Some? && IsDate(r.value) && IsTimeOfDay(r.value)
    ensures Seconds(r.value) == timer
    ensures r.value.yday == DayOfYear(r.value) && r.value.wday == (Day(r.value) + 4) % 7 && r.value.isdst == 0
    ensures r.value.year <= 206
  {
    hide DaysInMonth, DaysBeforeMonth, DaysBeforeYear;
    var remaining := timer;
    var sec := remaining % 60;
    remaining := remaining / 60;
    var min := remaining % 60;
    remaining := remaining / 60;
    var hour := remaining % 24;
    var days := remaining / 24;
    SplitTime(timer);
    var year, dayOfYear := YearOf(days);
    var month, dayOfMonth := MonthOf(year, dayOfYear);
    YearInRange(timer, days, year, dayOfYear);
    r := if month == 12 then None
         else Some(Tm(sec, min, hour, dayOfMonth + 1, month, year - 1900, (days + 4) % 7, dayOfYear, 0));
  }

  lemma SplitTime(t: nat)
    ensures t == t / 60 / 60 / 24 * SECONDS_PER_DAY + t / 60 / 60 % 24 * 3600 + t / 60 % 60 * 60 + t % 60
  {
  }

  lemma YearInRange(timer: u32, days: nat, year: nat, dayOfYear: nat)
    requires days == timer / 60 / 60 / 24 && year >= EPOCH_YEAR && days == DaysBeforeYear(year) + dayOfYear
    ensures year <= 2106
  {
    hide DaysBeforeYear;
    if year > EPOCH_YEAR {
      YearsGrow(EPOCH_YEAR, year);
    }
  }

  method YearOf(days: nat) returns (year: nat, dayOfYear: nat)
    ensures year >= EPOCH_YEAR && dayOfYear < DaysInYear(year) && days == DaysBeforeYear(year) + dayOfYear
  {
    dayOfYear := days;
    year := EPOCH_YEAR;
    while true
      invariant year >= EPOCH_YEAR && days == DaysBeforeYear(year) + dayOfYear
      decreases dayOfYear
    {
      var daysInYear := DaysInYear(year);
      if dayOfYear < daysInYear {
        break;
      }
      dayOfYear := dayOfYear - daysInYear;
      year := year + 1;
    }
  }

  method MonthOf(year: nat, dayOfYear: nat) returns (month: nat, dayOfMonth: nat)
    ensures month <= 12 && dayOfYear == DaysBeforeMonth(year, month) + dayOfMonth
    ensures month < 12 ==> dayOfMonth < DaysInMonth(year, month)
    ensures month == 12 <==> dayOfYear >= DaysInYear(year)
  {
    hide DaysInMonth;
    dayOfMonth := dayOfYear;
    month := 0;
    while month < 12
      invariant month <= 12 && dayOfYear == DaysBeforeMonth(year, month) + dayOfMonth
    {
      var daysInMonth := DaysInMonth(year, month);
      if dayOfMonth < daysInMonth {
        break;
      }
      dayOfMonth := dayOfMonth - daysInMonth;
      month := month + 1;
    }
    YearIsMonths(year);
    if month < 12 {
      MonthsGrow(year, month, 12);
    }
  }

  /** What `mktime` accepts. */
  predicate Accepted(tm: Tm) {
    IsDate(tm) && IsTimeOfDay(tm) && tm.year <= 206 && Seconds(tm) < UINT32_MAX
  }

  method MkTime(tm: Tm) returns (t: Option<u32>, normal: Tm)
    ensures t.Some? <==> Accepted(tm)
    ensures t.Some? ==> t.value == Seconds(tm) && normal == tm.(wday := (Day(tm) + 4) % 7, yday := DayOfYear(tm), isdst := 0)
    ensures t.None? ==> normal == tm
  {
    hide DaysInMonth;
    normal := tm;
    if tm.year < 70 || tm.year > 206 || tm.mon < 0 || tm.mon > 11 || tm.hour < 0 || tm.hour > 23
      || tm.min < 0 || tm.min > 59 || tm.sec < 0 || tm.sec > 59 {
      return None, tm;
    }
    var year, month := tm.year + 1900, tm.mon;
    var daysInMonth := DaysInMonth(year, month);
    if tm.mday < 1 || tm.mday > daysInMonth {
      return None, tm;
    }
    var daysSinceEpoch := 0;
    var currentYear := EPOCH_YEAR;
    while currentYear < year
      invariant EPOCH_YEAR <= currentYear <= year
      invariant daysSinceEpoch == DaysBeforeYear(currentYear)
    {
      daysSinceEpoch := daysSinceEpoch + DaysInYear(currentYear);
      currentYear := currentYear + 1;
    }
    var dayOfYear := tm.mday - 1;
    var currentMonth := 0;
    while currentMonth < month
      invariant 0 <= currentMonth <= month
      invariant dayOfYear == tm.mday - 1 + DaysBeforeMonth(year, currentMonth)
    {
      dayOfYear := dayOfYear + DaysInMonth(year, currentMonth);
      currentMonth := currentMonth + 1;
    }
    var totalDays := daysSinceEpoch + dayOfYear;
    var totalSeconds := totalDays * SECONDS_PER_DAY + tm.hour * 3600 + tm.min * 60 + tm.sec;
    if totalSeconds >= UINT32_MAX {
      return None, tm;
    }
    return Some(totalSeconds), tm.(wday := (totalDays + 4) % 7, yday := dayOfYear, isdst := 0);
  }

  // ---- round trips

  /** Two calendar times that name the same second agree in every field that names it. */
  lemma SecondsAreUnique(a: Tm, b: Tm)
    requires IsDate(a) && IsTimeOfDay(a) && IsDate(b) && IsTimeOfDay(b) && Seconds(a) == Seconds(b)
    ensures a == b.(wday := a.wday, yday := a.yday, isdst := a.isdst)
  {
    hide DaysInMonth, Day;
    TimeOfDayIsUnique(Day(a), a.hour, a.min, a.sec, Seconds(a));
    TimeOfDayIsUnique(Day(b), b.hour, b.min, b.sec, Seconds(b));
    DateIsUnique(a, b);
  }

  /** Converting to the calendar and back gives the same second, for every time but the last one. */
  method ThereAndBack(timer: u32) returns (t: Option<u32>)
    ensures t == if timer < UINT32_MAX then Some(timer) else None
  {
    hide Seconds, IsDate, DaysInMonth;
    var tm := GmTime(timer);
    var normal;
    t, normal := MkTime(tm.value);
  }

  /** And the other way round: a calendar time that is accepted comes back, its derived fields filled in. */
  method BackAndThere(tm: Tm) returns (r: Option<Tm>)
    ensures r.Some? <==> Accepted(tm)
    ensures r.Some? ==> r.value == tm.(wday := (Day(tm) + 4) % 7, yday := DayOfYear(tm), isdst := 0)
  {
    hide Day, DaysInMonth;
    var t, normal := MkTime(tm);
    if t.None? {
      return None;
    }
    r := GmTime(t.value);
    SecondsAreUnique(r.value, tm);
  }

  // ---- the clock chip

  /** `RTC_TimeTypeDef` and `RTC_DateTypeDef`: years from 2000, months from 1, Sunday is 7. */
  datatype Rtc = Rtc(hours: byte, minutes: byte, seconds: byte, weekDay: byte, month: byte, date: byte, year: byte)

  /** The fields `sntp_service_set_time` writes, if the chip can hold the year. */
  method SetTime(unixSeconds: u32) returns (rtc: Option<Rtc>)
    ensures rtc.Some? <==> exists tm :: Names(tm, unixSeconds) && 100 <= tm.year <= 199
    ensures rtc.Some? ==> Names(FromRtc(rtc.value), unixSeconds) && rtc.value.year <= 99
    ensures rtc.Some? ==> 1 <= rtc.value.weekDay <= 7 && rtc.value.weekDay % 7 == (unixSeconds / SECONDS_PER_DAY + 4) % 7
  {
    hide DaysInMonth, Seconds;
    var r := GmTime(unixSeconds);
    var tm := r.value;
    assert Names(tm, unixSeconds);
    if tm.year < 100 || tm.year > 199 {
      forall other | Names(other, unixSeconds) ensures other.year == tm.year {
        SecondsAreUnique(other, tm);
      }
      return None;
    }
    SecondsOf(tm);
    DaysOf(unixSeconds);
    rtc := Some(Rtc(tm.hour, tm.min, tm.sec, if tm.wday == 0 then 7 else tm.wday, tm.mon + 1, tm.mday, tm.year - 100));
    SameSecond(tm, FromRtc(rtc.value));
  }

  lemma SecondsOf(tm: Tm)
    requires IsDate(tm) && IsTimeOfDay(tm)
    ensures Day(tm) == Seconds(tm) / 60 / 60 / 24
  {
    hide Day;
    TimeOfDayIsUnique(Day(tm), tm.hour, tm.min, tm.sec, Seconds(tm));
  }

  lemma DaysOf(t: nat)
    ensures t / 60 / 60 / 24 == t / SECONDS_PER_DAY
  {
  }

  predicate Names(tm: Tm, t: nat) {
    IsDate(tm) && IsTimeOfDay(tm) && Seconds(tm) == t
  }

  lemma SameSecond(a: Tm, b: Tm)
    requires IsDate(a) && IsTimeOfDay(a) && a == b.(wday := a.wday, yday := a.yday, isdst := a.isdst)
    ensures IsDate(b) && IsTimeOfDay(b) && Seconds(b) == Seconds(a)
  {
  }

  /** The calendar time `sntp_service_get_time` assembles. */
  function FromRtc(rtc: Rtc): Tm {
    Tm(rtc.seconds, rtc.minutes, rtc.hours, rtc.date, rtc.month - 1, rtc.year + 100, 0, 0, -1)
  }

  method GetTime(rtc: Rtc) returns (t: Option<u32>)
    ensures t.Some? <==> Accepted(FromRtc(rtc))
    ensures t.Some? ==> t.value == Seconds(FromRtc(rtc))
  {
    hide Seconds, DaysInMonth;
    var normal;
    t, normal := MkTime(FromRtc(rtc));
  }

  /** A time the chip can hold is read back unchanged. */
  method StoreAndLoad(unixSeconds: u32) returns (t: Option<u32>)
    ensures t.Some? <==> exists tm :: Names(tm, unixSeconds) && 100 <= tm.year <= 199
    ensures t.Some? ==> t.value == unixSeconds
  {
    hide Seconds, DaysInMonth;
    var rtc := SetTime(unixSeconds);
    if rtc.None? {
      return None;
    }
    BeforeTheEnd(FromRtc(rtc.value));
    t := GetTime(rtc.value);
  }

  /** The chip's years end well before 32 bits do. */
  lemma BeforeTheEnd(tm: Tm)
    requires IsDate(tm) && IsTimeOfDay(tm) && tm.year <= 199
    ensures Seconds(tm) < UINT32_MAX
  {
    hide DaysInMonth, DaysBeforeYear;
    DayOfYearFits(tm);
    YearsGrow(tm.year + 1900, 2106);
    EndIsFar();
  }

  lemma EndIsFar()
    ensures DaysBeforeYear(2106) < 49710
  {
    DaysBounded(2106);
  }

  lemma {:induction false} DaysBounded(year: nat)
    requires year >= EPOCH_YEAR
    ensures DaysBeforeYear(year) <= 365 * (year - EPOCH_YEAR) + (year - 1) / 4 - 492
  {
    if year > EPOCH_YEAR {
      DaysBounded(year - 1);
    }
  }
}
