// Calendar dates and their day numbers (backend/src/relativeDates.ts), worked out as in section 21.4.1 of
// ECMA-262; days count from 1 January 1970.
module Calendar {
  import opened Decimal
  import opened Text
  import opened Wrappers

  datatype Civil = Civil(year: int, month: int, day: int)

  // ---------------------------------------------------------------- the calendar itself

  predicate IsLeap(year: int) {
    year % 4 == 0 && (year % 100 != 0 || year % 400 == 0)
  }

  function DaysInMonth(year: int, month: int): int {
    if month == 2 then (if IsLeap(year) then 29 else 28)
    else if month == 4 || month == 6 || month == 9 || month == 11 then 30
    else 31
  }

  predicate IsDate(c: Civil) {
    1 <= c.month <= 12 && 1 <= c.day <= DaysInMonth(c.year, c.month)
  }

  /** The date after a date. */
  function NextDate(c: Civil): Civil {
    if c.day < DaysInMonth(c.year, c.month) then Civil(c.year, c.month, c.day + 1)
    else if c.month < 12 then Civil(c.year, c.month + 1, 1)
    else Civil(c.year + 1, 1, 1)
  }

  // ---------------------------------------------------------------- day numbers

  function DayFromYear(year: int): int {
    365 * (year - 1970) + (year - 1969) / 4 - (year - 1901) / 100 + (year - 1601) / 400
  }

  /** Days of the year before its months, counted from zero. */
  function DaysBefore(leap: bool, month: int): int {
    (if month <= 0 then 0 else if month == 1 then 31 else if month == 2 then 59 else if month == 3 then 90
     else if month == 4 then 120 else if month == 5 then 151 else if month == 6 then 181 else if month == 7 then 212
     else if month == 8 then 243 else if month == 9 then 273 else if month == 10 then 304 else if month == 11 then 334
     else 365)
    + (if leap && month >= 2 then 1 else 0)
  }

  /** `Date.UTC` of a year, a month counted from zero and a day, neither of them limited to its range. */
  function MakeDay(year: int, month: int, day: int): int {
    var y := year + month / 12;
    DayFromYear(y) + DaysBefore(IsLeap(y), month % 12) + day - 1
  }

  lemma {:induction false} FourYears(year: int)
    ensures (year - 1968) / 4 - (year - 1969) / 4 == if year % 4 == 0 then 1 else 0
  {
  }

  lemma {:induction false} Centuries(year: int)
    ensures (year - 1900) / 100 - (year - 1901) / 100 == if year % 100 == 0 then 1 else 0
  {
  }

  lemma {:induction false} FourCenturies(year: int)
    ensures (year - 1600) / 400 - (year - 1601) / 400 == if year % 400 == 0 then 1 else 0
  {
  }

  lemma {:induction false} CenturyIsFourth(year: int)
    ensures (year % 400 == 0 ==> year % 100 == 0) && (year % 100 == 0 ==> year % 4 == 0)
  {
  }

  lemma {:induction false} YearLength(year: int)
    ensures DayFromYear(year + 1) == DayFromYear(year) + if IsLeap(year) then 366 else 365
  {
    FourYears(year);
    Centuries(year);
    FourCenturies(year);
    CenturyIsFourth(year);
    YearStep(year);
    hide DayFromYear;
  }

  lemma {:induction false} YearStep(year: int)
    ensures DayFromYear(year + 1) == DayFromYear(year) + 365 + ((year - 1968) / 4 - (year - 1969) / 4)
                                     - ((year - 1900) / 100 - (year - 1901) / 100) + ((year - 1600) / 400 - (year - 1601) / 400)
  {
  }

  function YearFrom(day: int, year: int): (y: int)
    requires DayFromYear(year) <= day
    ensures DayFromYear(y) <= day < DayFromYear(y + 1)
    decreases day - DayFromYear(year)
  {
    YearLength(year);
    if day < DayFromYear(year + 1) then year else YearFrom(day, year + 1)
  }

  /** The latest year that starts no later than the day. */
  function YearOf(day: int): (y: int)
    ensures DayFromYear(y) <= day < DayFromYear(y + 1)
  {
    YearFrom(day, if day >= 0 then 1970 else 1970 + day)
  }

  function MonthFrom(leap: bool, k: int, month: int): (m: int)
    requires 0 <= month <= 11 && DaysBefore(leap, month) <= k < DaysBefore(leap, 12)
    ensures 0 <= m <= 11 && DaysBefore(leap, m) <= k < DaysBefore(leap, m + 1)
    decreases 12 - month
  {
    if k < DaysBefore(leap, month + 1) then month else MonthFrom(leap, k, month + 1)
  }

  /** The date of a day number: `getUTCFullYear`, `getUTCMonth` plus one and `getUTCDate`. */
  function CivilOf(day: int): Civil {
    var y := YearOf(day);
    YearLength(y);
    var k := day - DayFromYear(y);
    var m := MonthFrom(IsLeap(y), k, 0);
    Civil(y, m + 1, k - DaysBefore(IsLeap(y), m) + 1)
  }

  function DayOf(c: Civil): int {
    MakeDay(c.year, c.month - 1, c.day)
  }

  lemma {:induction false} YearsInOrder(y: int, z: int)
    requires y <= z
    ensures DayFromYear(y) <= DayFromYear(z)
    decreases z - y
  {
    if y < z {
      YearLength(y);
      YearsInOrder(y + 1, z);
    }
  }

  lemma {:induction false} YearIsUnique(day: int, y: int, z: int)
    requires DayFromYear(y) <= day < DayFromYear(y + 1) && DayFromYear(z) <= day < DayFromYear(z + 1)
    ensures y == z
  {
    hide DayFromYear;
    if y < z { YearsInOrder(y + 1, z); }
    if z < y { YearsInOrder(z + 1, y); }
  }

  lemma {:induction false} MonthLength(year: int, month: int)
    requires 1 <= month <= 12
    ensures DaysBefore(IsLeap(year), month) == DaysBefore(IsLeap(year), month - 1) + DaysInMonth(year, month)
  {
    hide IsLeap;
  }

  lemma {:induction false} MonthIsUnique(leap: bool, k: int, m: int, n: int)
    requires 0 <= m <= 11 && DaysBefore(leap, m) <= k < DaysBefore(leap, m + 1)
    requires 0 <= n <= 11 && DaysBefore(leap, n) <= k < DaysBefore(leap, n + 1)
    ensures m == n
  {
    assert forall i, j :: 0 <= i <= j <= 12 ==> DaysBefore(leap, i) <= DaysBefore(leap, j);
    hide DaysBefore;
  }

  lemma {:induction false} DayOfDate(c: Civil)
    requires 1 <= c.month <= 12
    ensures DayOf(c) == DayFromYear(c.year) + DaysBefore(IsLeap(c.year), c.month - 1) + c.day - 1
  {
    hide DayFromYear, DaysBefore, IsLeap, MakeDay;
    MakeDayIs(c.year, c.month, c.day);
  }

  lemma {:induction false} CivilYear(day: int)
    ensures DayFromYear(CivilOf(day).year) <= day < DayFromYear(CivilOf(day).year + 1)
  {
    hide DayFromYear, DaysBefore, IsLeap, MonthFrom;
  }

  lemma {:induction false} MakeDayIs(year: int, month: int, day: int)
    requires 1 <= month <= 12
    ensures MakeDay(year, month - 1, day) == DayFromYear(year) + DaysBefore(IsLeap(year), month - 1) + day - 1
  {
    hide DayFromYear, DaysBefore, IsLeap;
  }

  /** Day numbers and dates correspond one to one. */
  lemma {:induction false} DaysAreDates(day: int)
    ensures IsDate(CivilOf(day)) && DayOf(CivilOf(day)) == day
  {
    var c := CivilOf(day);
    YearLength(c.year);
    MonthLength(c.year, c.month);
    DayOfDate(c);
    hide DayFromYear, DaysBefore, IsLeap, DaysInMonth, DayOf;
  }

  lemma {:induction false} CivilOfIs(day: int, y: int, m: int)
    requires DayFromYear(y) <= day < DayFromYear(y + 1)
    requires 1 <= m <= 12 && DaysBefore(IsLeap(y), m - 1) <= day - DayFromYear(y) < DaysBefore(IsLeap(y), m)
    ensures CivilOf(day) == Civil(y, m, day - DayFromYear(y) - DaysBefore(IsLeap(y), m - 1) + 1)
  {
    hide DayFromYear, DaysBefore, IsLeap, YearFrom, YearOf, MonthFrom;
    YearIsUnique(day, y, YearOf(day));
    YearLength(y);
    MonthsBounded(IsLeap(y), m);
    MonthIsUnique(IsLeap(y), day - DayFromYear(y), m - 1, MonthFrom(IsLeap(y), day - DayFromYear(y), 0));
  }

  lemma {:induction false} DatesAreDays(c: Civil)
    requires IsDate(c)
    ensures CivilOf(DayOf(c)) == c
  {
    hide DayFromYear, DaysBefore, IsLeap, DaysInMonth, DayOf, CivilOf;
    YearLength(c.year);
    MonthLength(c.year, c.month);
    DayOfDate(c);
    MonthsBounded(IsLeap(c.year), c.month);
    CivilOfIs(DayOf(c), c.year, c.month);
  }

  lemma {:induction false} MonthsBounded(leap: bool, month: int)
    requires 1 <= month <= 12
    ensures 0 <= DaysBefore(leap, month - 1) && DaysBefore(leap, month) <= if leap then 366 else 365
    ensures DaysBefore(leap, 0) == 0 && DaysBefore(leap, 12) == if leap then 366 else 365
  {
  }

  lemma {:induction false} MonthHasDays(year: int, month: int)
    ensures 28 <= DaysInMonth(year, month) <= 31
  {
    hide IsLeap;
  }

  lemma {:induction false} NextDateIsADayLater(c: Civil)
    requires IsDate(c)
    ensures IsDate(NextDate(c)) && DayOf(NextDate(c)) == DayOf(c) + 1
  {
    hide DayFromYear, DaysBefore, IsLeap, DaysInMonth, DayOf;
    var n := NextDate(c);
    MonthHasDays(n.year, n.month);
    DayOfDate(c);
    DayOfDate(n);
    YearLength(c.year);
    MonthLength(c.year, c.month);
    MonthsBounded(IsLeap(c.year), c.month);
    MonthsBounded(IsLeap(n.year), n.month);
  }

  /** The calendar's own rule: the next day has the next date, and day zero is 1 January 1970. */
  lemma {:induction false} NextDayIsNextDate(day: int)
    ensures CivilOf(day + 1) == NextDate(CivilOf(day))
    ensures CivilOf(0) == Civil(1970, 1, 1)
  {
    FirstDay();
    hide CivilOf, DayOf, NextDate, IsDate;
    DaysAreDates(day);
    NextDateIsADayLater(CivilOf(day));
    DatesAreDays(NextDate(CivilOf(day)));
  }

  lemma {:induction false} FirstDay()
    ensures CivilOf(0) == Civil(1970, 1, 1)
  {
    hide CivilOf;
    DatesAreDays(Civil(1970, 1, 1));
  }
}

