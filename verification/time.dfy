/**
 * Minute-granular civil time, as the engine uses chrono's NaiveDateTime, NaiveDate and
 * NaiveTime. A timestamp is a count of minutes since 1970-01-01 00:00; a day is a count of
 * days since 1970-01-01. Dafny's `/` and `%` on int are Euclidean, so for negative
 * timestamps the day is the floor, as chrono's date() is.
 */
module Time {

  const MinutesPerDay: int := 1440

  type Timestamp = int
  type Day = int

  /** The date part of a timestamp (chrono `date()`). */
  function DayOf(t: Timestamp): Day { t / MinutesPerDay }

  /** Minutes since midnight (chrono `num_seconds_from_midnight() / 60`). */
  function MinuteOfDay(t: Timestamp): (m: int)
    ensures 0 <= m < MinutesPerDay
  {
    t % MinutesPerDay
  }

  /** The hour of a timestamp (chrono `hour()`). */
  function Hour(t: Timestamp): (h: int)
    ensures 0 <= h < 24
  {
    MinuteOfDay(t) / 60
  }

  /** The timestamp of a minute of a day. */
  function At(day: Day, minute: int): Timestamp
    requires 0 <= minute < MinutesPerDay
  {
    day * MinutesPerDay + minute
  }

  /** A clock reading hh:mm as minutes since midnight. */
  function Clock(hh: int, mm: int): int { hh * 60 + mm }

  lemma AtParts(day: Day, minute: int)
    requires 0 <= minute < MinutesPerDay
    ensures DayOf(At(day, minute)) == day && MinuteOfDay(At(day, minute)) == minute
  {
  }

  lemma PartsAt(t: Timestamp)
    ensures At(DayOf(t), MinuteOfDay(t)) == t
  {
  }

  /** Minutes of one day are ordered as their timestamps are. */
  lemma SameDayOrder(t: Timestamp, u: Timestamp)
    requires DayOf(t) == DayOf(u)
    ensures t < u <==> MinuteOfDay(t) < MinuteOfDay(u)
    ensures u - t == MinuteOfDay(u) - MinuteOfDay(t)
  {
    PartsAt(t);
    PartsAt(u);
  }

  /** Hour bounds of the operating window, stated on minutes of the day. */
  lemma HourWindow(t: Timestamp, lo: int, hi: int)
    requires 0 <= lo <= hi <= 24
    ensures lo <= Hour(t) < hi <==> 60 * lo <= MinuteOfDay(t) < 60 * hi
  {
  }

  // ---------------------------------------------------------------------------
  // The proleptic Gregorian calendar (chrono's NaiveDate), day 0 = 1970-01-01.

  datatype CivilDate = CivilDate(year: int, month: int, day: int)

  predicate IsLeap(y: int) { y % 4 == 0 && (y % 100 != 0 || y % 400 == 0) }

  function DaysInYear(y: int): int { if IsLeap(y) then 366 else 365 }

  function DaysInMonth(y: int, m: int): (n: int)
    requires 1 <= m <= 12
    ensures 28 <= n <= 31
  {
    if m == 2 then (if IsLeap(y) then 29 else 28)
    else if m == 4 || m == 6 || m == 9 || m == 11 then 30
    else 31
  }

  /** Days of year y before the first of month m. */
  function DaysBeforeMonth(y: int, m: int): (n: int)
    requires 1 <= m <= 12
  {
    (if m == 1 then 0 else if m == 2 then 31 else if m == 3 then 59 else if m == 4 then 90
     else if m == 5 then 120 else if m == 6 then 151 else if m == 7 then 181 else if m == 8 then 212
     else if m == 9 then 243 else if m == 10 then 273 else if m == 11 then 304 else 334)
    + (if IsLeap(y) && m > 2 then 1 else 0)
  }

  predicate ValidDate(c: CivilDate)
  {
    1 <= c.month <= 12 && 1 <= c.day <= DaysInMonth(c.year, c.month)
  }

  /** Splits day offset d, counted from January 1 of year y, into a year and a day of that year. */
  function YearOrdinal(y: int, d: int): (r: (int, int))
    ensures 0 <= r.1 < DaysInYear(r.0)
    decreases if d < 0 then 367 - d else d
  {
    if d < 0 then YearOrdinal(y - 1, d + DaysInYear(y - 1))
    else if d < DaysInYear(y) then (y, d)
    else YearOrdinal(y + 1, d - DaysInYear(y))
  }

  /** The month holding day o (counted from 0) of year y. */
  function MonthOf(y: int, o: int): (m: int)
    requires 0 <= o < DaysInYear(y)
    ensures 1 <= m <= 12 && DaysBeforeMonth(y, m) <= o < DaysBeforeMonth(y, m) + DaysInMonth(y, m)
  {
    if o < DaysBeforeMonth(y, 2) then 1
    else if o < DaysBeforeMonth(y, 3) then 2
    else if o < DaysBeforeMonth(y, 4) then 3
    else if o < DaysBeforeMonth(y, 5) then 4
    else if o < DaysBeforeMonth(y, 6) then 5
    else if o < DaysBeforeMonth(y, 7) then 6
    else if o < DaysBeforeMonth(y, 8) then 7
    else if o < DaysBeforeMonth(y, 9) then 8
    else if o < DaysBeforeMonth(y, 10) then 9
    else if o < DaysBeforeMonth(y, 11) then 10
    else if o < DaysBeforeMonth(y, 12) then 11
    else 12
  }

  /** The civil date of a day number (chrono's NaiveDate year(), month(), day()). */
  function Civil(d: Day): (c: CivilDate)
    ensures ValidDate(c)
  {
    var (y, o) := YearOrdinal(1970, d);
    var m := MonthOf(y, o);
    CivilDate(y, m, o - DaysBeforeMonth(y, m) + 1)
  }

  /** Days from 1970-01-01 to January 1 of year y. */
  function DaysBeforeYear(y: int): int
    decreases if y >= 1970 then y - 1970 else 1970 - y
  {
    if y == 1970 then 0
    else if y > 1970 then DaysBeforeYear(y - 1) + DaysInYear(y - 1)
    else DaysBeforeYear(y + 1) - DaysInYear(y)
  }

  /** The day number of a civil date (the inverse of Civil). */
  function DaysFromCivil(c: CivilDate): Day
    requires ValidDate(c)
  {
    DaysBeforeYear(c.year) + DaysBeforeMonth(c.year, c.month) + c.day - 1
  }

  lemma {:induction false} NextYear(y: int)
    ensures DaysBeforeYear(y + 1) == DaysBeforeYear(y) + DaysInYear(y)
  {
  }

  lemma {:induction false} YearsAscend(y0: int, y: int)
    requires y0 <= y
    ensures DaysBeforeYear(y0) <= DaysBeforeYear(y)
    decreases y - y0
  {
    if y0 < y {
      NextYear(y0);
      YearsAscend(y0 + 1, y);
    }
  }

  lemma {:induction false} YearOrdinalOf(y0: int, y: int, o: int)
    requires 0 <= o < DaysInYear(y)
    ensures YearOrdinal(y0, DaysBeforeYear(y) - DaysBeforeYear(y0) + o) == (y, o)
    decreases if y0 <= y then y - y0 else y0 - y
  {
    var d := DaysBeforeYear(y) - DaysBeforeYear(y0) + o;
    NextYear(y0);
    if y0 < y {
      YearsAscend(y0 + 1, y);
      YearOrdinalOf(y0 + 1, y, o);
    } else if y0 > y {
      NextYear(y);
      YearsAscend(y + 1, y0);
      NextYear(y0 - 1);
      YearOrdinalOf(y0 - 1, y, o);
    }
  }

  /** The month intervals do not overlap, so a day of month m is found in month m. */
  lemma MonthOfDay(y: int, m: int, o: int)
    requires 1 <= m <= 12 && DaysBeforeMonth(y, m) <= o < DaysBeforeMonth(y, m) + DaysInMonth(y, m)
    ensures 0 <= o < DaysInYear(y) && MonthOf(y, o) == m
  {
  }

  lemma {:induction false} OrdinalOfYear(y0: int, d: int)
    ensures DaysBeforeYear(YearOrdinal(y0, d).0) + YearOrdinal(y0, d).1 == DaysBeforeYear(y0) + d
    decreases if d < 0 then 367 - d else d
  {
    if d < 0 {
      NextYear(y0 - 1);
      OrdinalOfYear(y0 - 1, d + DaysInYear(y0 - 1));
    } else if d >= DaysInYear(y0) {
      NextYear(y0);
      OrdinalOfYear(y0 + 1, d - DaysInYear(y0));
    }
  }

  /** Every valid civil date is the date of exactly its day number. */
  lemma CivilOfDays(c: CivilDate)
    requires ValidDate(c)
    ensures Civil(DaysFromCivil(c)) == c
  {
    var o := DaysBeforeMonth(c.year, c.month) + c.day - 1;
    MonthOfDay(c.year, c.month, o);
    YearOrdinalOf(1970, c.year, o);
  }

  /** Every day number is the day number of its civil date. */
  lemma DaysOfCivil(d: Day)
    ensures DaysFromCivil(Civil(d)) == d
  {
    OrdinalOfYear(1970, d);
  }
}
