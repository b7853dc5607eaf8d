// Texts that name a date, absolute or relative to today (backend/src/relativeDates.ts).
module DateWords {
  import opened Calendar
  import opened Decimal
  import opened Text
  import opened Wrappers

  // ---------------------------------------------------------------- dates as text

  /** Instants further from 1970 than this are no `Date`. */
  const MAX_DAYS := 100_000_000

  /** `toISOString().slice(0, 10)`: years outside 0 to 9999 print a sign and six digits, and lose their day. */
  function Iso(c: Civil): (text: string)
    requires IsDate(c)
    ensures |text| == 10
  {
    var month, day := PadStart(Print(c.month), 2), PadStart(Print(c.day), 2);
    if 0 <= c.year <= 9999 then
      FourDigits(c.year);
      TwoDigits(c.month);
      TwoDigits(c.day);
      PadStart(Print(c.year), 4) + "-" + month + "-" + day
    else if c.year < 0 then ("-" + PadStart(Print(-c.year), 6) + "-" + month + "-" + day)[..10]
    else ("+" + PadStart(Print(c.year), 6) + "-" + month + "-" + day)[..10]
  }

  predicate HasForm(text: string) {
    |text| == 10 && text[4] == '-' && text[7] == '-'
    && AllDigits(text[..4]) && AllDigits(text[5..7]) && AllDigits(text[8..])
  }

  function Parts(text: string): Civil
    requires HasForm(text)
  {
    Civil(Value(text[..4]), Value(text[5..7]), Value(text[8..]))
  }

  /** The form, a month and a day in range, and the round trip through `Date.UTC`, which takes the years 0 to
      99 for 1900 to 1999. */
  predicate IsCalendarDate(text: string) {
    HasForm(text)
    && var c := Parts(text);
       1 <= c.month <= 12 && 1 <= c.day <= 31
       && CivilOf(MakeDay(if c.year <= 99 then 1900 + c.year else c.year, c.month - 1, c.day)) == c
  }

  /** `new Date(text + "T00:00:00Z")`; none when that is an invalid date. */
  function DayOfText(text: string): Option<int> {
    if HasForm(text) && IsDate(Parts(text)) then Some(DayOf(Parts(text))) else None
  }

  /** The day's date as text; none when it is no `Date` and printing it throws. */
  function Printed(day: int): Option<string> {
    DaysAreDates(day);
    if -MAX_DAYS <= day <= MAX_DAYS then Some(Iso(CivilOf(day))) else None
  }

  function AddDays(text: string, days: int): Option<string> {
    var start := DayOfText(text);
    if start.None? then None
    else
      var c := CivilOf(start.value);
      Printed(MakeDay(c.year, c.month - 1, c.day + days))
  }

  // ---------------------------------------------------------------- reading and printing

  lemma {:induction false} TwoDigits(n: nat)
    requires n <= 99
    ensures |PadStart(Print(n), 2)| == 2
  {
    PrintLengthMonotone(n, 99);
  }

  lemma {:induction false} FourDigits(n: nat)
    requires n <= 9999
    ensures |PadStart(Print(n), 4)| == 4
  {
    PrintLengthMonotone(n, 9999);
    assert |Print(99)| == 2 && |Print(999)| == 3;
  }

  lemma {:induction false} SameValueSameText(s: string, t: string)
    requires AllDigits(s) && AllDigits(t) && |s| == |t| && Value(s) == Value(t)
    ensures s == t
  {
    if s != [] {
      SameValueSameText(s[..|s| - 1], t[..|t| - 1]);
      assert s == s[..|s| - 1] + [s[|s| - 1]] && t == t[..|t| - 1] + [t[|t| - 1]];
    }
  }

  /** Digits of the right number are the padded print of their value. */
  lemma {:induction false} PaddedValue(s: string)
    requires AllDigits(s) && (|s| == 2 || |s| == 4)
    ensures PadStart(Print(Value(s)), |s|) == s && Value(s) <= (if |s| == 2 then 99 else 9999)
  {
    if |s| == 2 {
      TwoDigitValue(s);
      TwoDigits(Value(s));
    } else {
      TwoDigitValue(s[..2]);
      assert s[..3][..2] == s[..2] && s[..4] == s;
      assert Value(s[..3]) <= 999;
      FourDigits(Value(s));
    }
    ValueOfPadded(Value(s), |s|);
    SameValueSameText(PadStart(Print(Value(s)), |s|), s);
  }

  lemma {:induction false} TwoDigitValue(s: string)
    requires AllDigits(s) && |s| == 2
    ensures Value(s) <= 99
  {
    assert s[..1][..0] == [];
    assert Value(s[..1]) <= 9;
  }

  lemma {:induction false} IsoOfYear(c: Civil)
    requires IsDate(c) && 0 <= c.year <= 9999
    ensures var text := Iso(c);
            text[..4] == PadStart(Print(c.year), 4) && text[4] == '-' && text[5..7] == PadStart(Print(c.month), 2)
            && text[7] == '-' && text[8..] == PadStart(Print(c.day), 2)
  {
    hide PadStart, Print;
    FourDigits(c.year);
    TwoDigits(c.month);
    TwoDigits(c.day);
    PartsOfConcat(PadStart(Print(c.year), 4), PadStart(Print(c.month), 2), PadStart(Print(c.day), 2));
  }

  lemma {:induction false} PartsOfConcat(year: string, month: string, day: string)
    requires |year| == 4 && |month| == 2 && |day| == 2
    ensures var text := year + "-" + month + "-" + day;
            |text| == 10 && text[..4] == year && text[4] == '-' && text[5..7] == month && text[7] == '-' && text[8..] == day
  {
    var text := year + "-" + month + "-" + day;
    assert text[5..] == month + "-" + day;
    assert text[5..7] == text[5..][..2] && text[8..] == text[5..][3..];
  }

  /** Printing a date of a four-digit year and reading it gives it back. */
  lemma {:induction false} IsoReadsBack(c: Civil)
    requires IsDate(c) && 0 <= c.year <= 9999
    ensures HasForm(Iso(c)) && Parts(Iso(c)) == c
  {
    IsoOfYear(c);
    ValueOfPadded(c.year, 4);
    ValueOfPadded(c.month, 2);
    ValueOfPadded(c.day, 2);
    hide PadStart, Print, Iso, Value;
  }

  lemma {:induction false} IsoOfParts(text: string)
    requires HasForm(text) && IsDate(Parts(text))
    ensures 0 <= Parts(text).year <= 9999 && Iso(Parts(text)) == text
  {
    PaddedValue(text[..4]);
    PaddedValue(text[5..7]);
    PaddedValue(text[8..]);
    IsoOfYear(Parts(text));
    hide PadStart, Print, Value, IsDate, Iso;
    var t := Iso(Parts(text));
    assert t == t[..4] + [t[4]] + t[5..7] + [t[7]] + t[8..];
    assert text == text[..4] + [text[4]] + text[5..7] + [text[7]] + text[8..];
  }

  /** Other years print as something of another form. */
  lemma {:induction false} IsoOfOtherYear(c: Civil)
    requires IsDate(c) && !(0 <= c.year <= 9999)
    ensures !HasForm(Iso(c))
  {
    assert Iso(c)[..4][0] == (if c.year < 0 then '-' else '+');
  }

  // ---------------------------------------------------------------- calendar dates

  lemma {:induction false} YearsAfter(year: int, month: int, day: int)
    requires 1 <= month <= 12 && 1 <= day
    ensures CivilOf(MakeDay(year, month - 1, day)).year >= year
  {
    hide DayFromYear, DaysBefore, MakeDay, IsLeap, CivilOf;
    var d := MakeDay(year, month - 1, day);
    MakeDayIs(year, month, day);
    MonthsBounded(IsLeap(year), month);
    CivilYear(d);
    var y := CivilOf(d).year;
    if y < year { YearsInOrder(y + 1, year); }
  }

  /** Exactly the printed dates of the years 100 to 9999 are calendar dates. */
  lemma {:induction false} CalendarDateExactly(text: string)
    ensures IsCalendarDate(text) <==> HasForm(text) && IsDate(Parts(text)) && Parts(text).year >= 100
    ensures IsCalendarDate(text) <==> exists c :: IsDate(c) && 100 <= c.year <= 9999 && Iso(c) == text
  {
    CalendarDateParts(text);
    hide IsCalendarDate, Iso, IsDate, HasForm, Parts;
    if IsCalendarDate(text) { IsoOfParts(text); }
    forall c | IsDate(c) && 100 <= c.year <= 9999 && Iso(c) == text ensures IsCalendarDate(text) { IsoReadsBack(c); }
  }

  lemma {:induction false} DateIsInRange(c: Civil)
    ensures IsDate(c) ==> 1 <= c.month <= 12 && 1 <= c.day <= 31
  {
  }

  lemma {:induction false} CalendarDateParts(text: string)
    ensures IsCalendarDate(text) <==> HasForm(text) && IsDate(Parts(text)) && Parts(text).year >= 100
  {
    hide HasForm, Parts, IsDate, CivilOf, MakeDay;
    if HasForm(text) {
      var c := Parts(text);
      DateIsInRange(c);
      if IsCalendarDate(text) {
        if c.year <= 99 { YearsAfter(1900 + c.year, c.month, c.day); }
        DaysAreDates(MakeDay(c.year, c.month - 1, c.day));
      } else if IsDate(c) && c.year >= 100 {
        DatesAreDays(c);
      }
    }
  }

  const FIRST_DAY: int := DayFromYear(100)
  const LAST_DAY: int := DayFromYear(10000) - 1

  lemma {:induction false} YearsInRange(day: int)
    ensures 100 <= CivilOf(day).year <= 9999 <==> FIRST_DAY <= day <= LAST_DAY
  {
    hide CivilOf, DayFromYear;
    CivilYear(day);
    var y := CivilOf(day).year;
    if y < 100 { YearsInOrder(y + 1, 100); } else { YearsInOrder(100, y); }
    if y > 9999 { YearsInOrder(10000, y); } else { YearsInOrder(y + 1, 10000); }
  }

  /** A printed day is a calendar date exactly between the years 100 and 9999. */
  lemma {:induction false} PrintedDay(day: int)
    ensures IsDate(CivilOf(day))
    ensures IsCalendarDate(Iso(CivilOf(day))) <==> FIRST_DAY <= day <= LAST_DAY
  {
    hide CivilOf, DayFromYear, IsDate, Iso, HasForm, Parts, IsCalendarDate, DayOf;
    DaysAreDates(day);
    YearsInRange(day);
    var c := CivilOf(day);
    CalendarDateExactly(Iso(c));
    if 0 <= c.year <= 9999 { IsoReadsBack(c); } else { IsoOfOtherYear(c); }
  }

  /** Adding days to a date counts days: the result is the print of that day. */
  lemma {:induction false} AddDaysCounts(c: Civil, days: int)
    requires IsDate(c) && 0 <= c.year <= 9999
    ensures AddDays(Iso(c), days) == Printed(DayOf(c) + days)
  {
    hide CivilOf, IsDate, Iso, HasForm, Parts, DaysBefore, DayFromYear, IsLeap, MakeDay, Printed;
    IsoReadsBack(c);
    DatesAreDays(c);
    DateIsInRange(c);
    MakeDayIs(c.year, c.month, c.day);
    MakeDayIs(c.year, c.month, c.day + days);
  }

  /** Adding twice is adding the sum, and one day is the next date. */
  lemma {:induction false} AddDaysAdds(c: Civil, m: int, n: int)
    requires IsDate(c) && 0 <= c.year <= 9999
    ensures var middle := CivilOf(DayOf(c) + m);
            IsDate(middle) && (0 <= middle.year <= 9999 ==> AddDays(Iso(middle), n) == AddDays(Iso(c), m + n))
    ensures IsDate(NextDate(c)) && AddDays(Iso(c), 1) == Some(Iso(NextDate(c)))
  {
    hide CivilOf, IsDate, Iso, DayOf, NextDate, AddDays;
    var middle := CivilOf(DayOf(c) + m);
    DaysAreDates(DayOf(c) + m);
    AddDaysCounts(c, m + n);
    if 0 <= middle.year <= 9999 { AddDaysCounts(middle, n); }
    NextDateIsADayLater(c);
    DatesAreDays(NextDate(c));
    AddDaysCounts(c, 1);
    FourDigitYears(c);
  }

  lemma {:induction false} FourDigitYears(c: Civil)
    requires IsDate(c) && 0 <= c.year <= 9999
    ensures -MAX_DAYS < DayOf(c) < MAX_DAYS
  {
    assert -MAX_DAYS + 1000 < DayFromYear(c.year) < MAX_DAYS - 1000;
    hide IsLeap, DaysBefore, DayOf, DayFromYear, IsDate;
    DateIsInRange(c);
    DayOfDate(c);
    MonthsBounded(IsLeap(c.year), c.month);
  }

  // ---------------------------------------------------------------- relative words

  /** Null, a thrown error, or a text. */
  datatype Reading = Unreadable | Throws | Reads(text: string)

  function FromPrinted(p: Option<string>): Reading {
    if p.Some? then Reads(p.value) else Throws
  }

  function DigitPrefix(s: string): (k: nat)
    ensures k <= |s| && AllDigits(s[..k]) && (k < |s| ==> !IsDigit(s[k]))
  {
    if s == [] || !IsDigit(s[0]) then 0 else 1 + DigitPrefix(s[1..])
  }

  predicate IsUnit(s: string) {
    s == "d" || s == "day" || s == "days"
  }

  /** `+7`, `+7d` or `+ 7 days` without the first space: the number, if the text has this form. */
  function PlusDays(text: string): Option<nat> {
    if text == [] || text[0] != '+' then None
    else
      var k := DigitPrefix(text[1..]);
      var digits, rest := text[1..][..k], text[1..][k..];
      if k >= 1 && (rest == [] || IsUnit(TrimStart(rest))) then Some(Value(digits)) else None
  }

  /** Monday is zero. */
  function WeekdayIndex(word: string): (w: Option<nat>)
    ensures w.Some? ==> w.value < 7
  {
    if word in {"mon", "monday"} then Some(0)
    else if word in {"tue", "tues", "tuesday"} then Some(1)
    else if word in {"wed", "weds", "wednesday"} then Some(2)
    else if word in {"thu", "thur", "thurs", "thursday"} then Some(3)
    else if word in {"fri", "friday"} then Some(4)
    else if word in {"sat", "saturday"} then Some(5)
    else if word in {"sun", "sunday"} then Some(6)
    else None
  }

  /** `getUTCDay`: 1 January 1970 was a Thursday and Sunday is zero. */
  function UtcDay(day: int): nat {
    (day + 4) % 7
  }

  function Weekday(day: int): nat {
    (UtcDay(day) + 6) % 7
  }

  function ResolveRelativeDateWord(lower: string -> string, value: string, today: string): Reading {
    var text := lower(Trim(value));
    if PlusDays(text).Some? then FromPrinted(AddDays(today, PlusDays(text).value))
    else if text == "today" then Reads(today)
    else if text == "tomorrow" then FromPrinted(AddDays(today, 1))
    else if text == "yesterday" then FromPrinted(AddDays(today, -1))
    else if WeekdayIndex(text).Some? then
      var day := DayOfText(today);
      if day.None? then Throws
      else
        var delta := (WeekdayIndex(text).value - Weekday(day.value) + 7) % 7;
        FromPrinted(AddDays(today, if delta == 0 then 7 else delta))
    else Unreadable
  }

  function ResolveTaskDate(lower: string -> string, value: string, today: string): Reading {
    var text := Trim(value);
    if IsCalendarDate(text) then Reads(text)
    else if !IsCalendarDate(today) then Unreadable
    else ResolveRelativeDateWord(lower, text, today)
  }

  /** The word, seen on a day, names another day: so many days later, or the next day after it that is a
      given weekday. */
  ghost predicate Names(word: string, day: int, named: int) {
    || (exists n :: PlusDays(word) == Some(n) && named == day + n)
    || (word == "today" && named == day)
    || (word == "tomorrow" && named == day + 1)
    || (word == "yesterday" && named == day - 1)
    || (WeekdayIndex(word).Some? && FirstAfter(day, WeekdayIndex(word).value, named))
  }

  /** The first day after a day that falls on a weekday. */
  ghost predicate FirstAfter(day: int, weekday: nat, named: int) {
    day < named && Weekday(named) == weekday && forall d :: day < d < named ==> Weekday(d) != weekday
  }

  lemma {:induction false} WeekdaysAhead(day: int, weekday: nat, d: int)
    requires weekday < 7 && day < d <= day + 7
    ensures Weekday(d) == weekday <==> d - day == (if weekday == Weekday(day) then 7 else (weekday - Weekday(day) + 7) % 7)
  {
    WeekdayLater(day, d - day);
    hide Weekday;
  }

  lemma {:induction false} UtcDayLater(day: int, k: int)
    requires 1 <= k <= 7
    ensures UtcDay(day + k) == if UtcDay(day) + k < 7 then UtcDay(day) + k else UtcDay(day) + k - 7
  {
    var q, r := (day + 4) / 7, (day + 4) % 7;
    assert day + k + 4 == 7 * (if r + k < 7 then q else q + 1) + (if r + k < 7 then r + k else r + k - 7);
  }

  lemma {:induction false} WeekdayLater(day: int, k: int)
    requires 1 <= k <= 7
    ensures Weekday(day) < 7
    ensures Weekday(day + k) == if Weekday(day) + k < 7 then Weekday(day) + k else Weekday(day) + k - 7
  {
    UtcDayLater(day, k);
    assert UtcDay(day) < 7;
    hide UtcDay;
  }

  lemma {:induction false} NextWeekday(day: int, weekday: nat)
    requires weekday < 7
    ensures var delta := (weekday - Weekday(day) + 7) % 7;
            forall named :: FirstAfter(day, weekday, named) <==> named == day + if delta == 0 then 7 else delta
  {
    WeekdayLater(day, 1);
    hide Weekday;
    var delta := (weekday - Weekday(day) + 7) % 7;
    var next := day + if delta == 0 then 7 else delta;
    assert delta == 0 <==> weekday == Weekday(day);
    forall d | day < d <= next ensures Weekday(d) == weekday <==> d == next { WeekdaysAhead(day, weekday, d); }
    assert FirstAfter(day, weekday, next);
    forall named | FirstAfter(day, weekday, named) ensures named == next {}
  }

  /** Exactly the texts of a plus sign, digits, and nothing or a unit after white space, say a number of days. */
  lemma {:induction false} PlusDaysExactly(text: string)
    ensures PlusDays(text).Some? <==>
              exists digits, space, unit :: IsPlus(text, digits, space, unit)
    ensures forall digits, space, unit :: IsPlus(text, digits, space, unit) ==> PlusDays(text) == Some(Value(digits))
  {
    if PlusDays(text).Some? {
      var k := DigitPrefix(text[1..]);
      var digits, rest := text[1..][..k], text[1..][k..];
      assert text == "+" + digits + rest;
      if rest == [] {
        assert text == "+" + digits + [] + [];
        assert IsPlus(text, digits, [], []);
      } else {
        SpaceBefore(rest);
        var space := rest[..|rest| - |TrimStart(rest)|];
        assert text == "+" + digits + space + TrimStart(rest);
        assert IsPlus(text, digits, space, TrimStart(rest));
      }
    }
    forall digits, space, unit | IsPlus(text, digits, space, unit) ensures PlusDays(text) == Some(Value(digits)) {
      PlusDaysReads(digits, space, unit);
    }
  }

  ghost predicate IsPlus(text: string, digits: string, space: string, unit: string) {
    text == "+" + digits + space + unit && digits != [] && AllDigits(digits) && AllSpace(space)
    && (IsUnit(unit) || (space == [] && unit == []))
  }

  lemma {:induction false} SpaceBefore(s: string)
    ensures |TrimStart(s)| <= |s| && AllSpace(s[..|s| - |TrimStart(s)|]) && s[|s| - |TrimStart(s)|..] == TrimStart(s)
  {
    if s != [] && IsSpace(s[0]) {
      SpaceBefore(s[1..]);
      var k := |s| - |TrimStart(s)|;
      assert s[..k] == [s[0]] + s[1..][..k - 1];
      assert s[k..] == s[1..][k - 1..];
    }
  }

  lemma {:induction false} TrimStartOfPadded(space: string, s: string)
    requires AllSpace(space) && (s == [] || !IsSpace(s[0]))
    ensures TrimStart(space + s) == s
  {
    if space == [] {
      assert space + s == s;
    } else {
      assert (space + s)[1..] == space[1..] + s;
      TrimStartOfPadded(space[1..], s);
    }
  }

  lemma {:induction false} DigitPrefixIs(digits: string, rest: string)
    requires AllDigits(digits) && (rest == [] || !IsDigit(rest[0]))
    ensures DigitPrefix(digits + rest) == |digits|
  {
    if digits == [] {
      assert digits + rest == rest;
    } else {
      assert (digits + rest)[1..] == digits[1..] + rest;
      DigitPrefixIs(digits[1..], rest);
    }
  }

  lemma {:induction false} PlusDaysReads(digits: string, space: string, unit: string)
    requires IsPlus("+" + digits + space + unit, digits, space, unit)
    ensures PlusDays("+" + digits + space + unit) == Some(Value(digits))
  {
    var text, rest := "+" + digits + space + unit, space + unit;
    assert text[1..] == digits + rest;
    assert rest != [] ==> rest[0] == (if space == [] then unit[0] else space[0]);
    DigitPrefixIs(digits, rest);
    assert (digits + rest)[..|digits|] == digits && (digits + rest)[|digits|..] == rest;
    if IsUnit(unit) { TrimStartOfPadded(space, unit); }
  }

  // ---------------------------------------------------------------- what a task date resolves to

  lemma {:induction false} PlusIsNoName(word: string)
    ensures PlusDays(word).Some? ==> word != [] && word[0] == '+'
    ensures WeekdayIndex(word).Some? ==> word != [] && word[0] != '+' && word !in {"today", "tomorrow", "yesterday"}
  {
  }

  lemma {:induction false} TodayPrinted(c: Civil)
    requires IsDate(c) && 0 <= c.year <= 9999
    ensures Printed(DayOf(c)) == Some(Iso(c)) && DayOfText(Iso(c)) == Some(DayOf(c))
  {
    FourDigitYears(c);
    DatesAreDays(c);
    IsoReadsBack(c);
    hide CivilOf, DayOf, IsDate, Iso, HasForm, Parts;
  }

  /** What a relative word gives: the day it names, printed; nothing when it names none. */
  lemma {:induction false} RelativeWord(lower: string -> string, value: string, c: Civil)
    requires IsDate(c) && 0 <= c.year <= 9999
    ensures var word, r := lower(Trim(value)), ResolveRelativeDateWord(lower, value, Iso(c));
            && (r.Unreadable? <==> !exists day :: Names(word, DayOf(c), day))
            && forall day :: Names(word, DayOf(c), day) ==> r == FromPrinted(Printed(day))
  {
    hide PlusDays, WeekdayIndex, AddDays, Printed, IsDate, Iso, DayOf, Trim, FirstAfter, CivilOf, Weekday, DayOfText;
    var word, today := lower(Trim(value)), DayOf(c);
    PlusIsNoName(word);
    TodayPrinted(c);
    if PlusDays(word).Some? {
      AddDaysCounts(c, PlusDays(word).value);
      assert Names(word, today, today + PlusDays(word).value);
    } else if word == "today" {
      assert Names(word, today, today);
    } else if word == "tomorrow" {
      AddDaysCounts(c, 1);
      assert Names(word, today, today + 1);
    } else if word == "yesterday" {
      AddDaysCounts(c, -1);
      assert Names(word, today, today - 1);
    } else if WeekdayIndex(word).Some? {
      NextWeekday(today, WeekdayIndex(word).value);
      var delta := (WeekdayIndex(word).value - Weekday(today) + 7) % 7;
      var ahead := if delta == 0 then 7 else delta;
      AddDaysCounts(c, ahead);
      assert Names(word, today, today + ahead);
    }
  }

  /** A task date: an absolute one stays as it is; a relative one needs a today, and gives a calendar date
      exactly when the day it names lies in the years 100 to 9999. */
  lemma {:induction false} TaskDateExactly(lower: string -> string, value: string, today: string)
    ensures var r, word := ResolveTaskDate(lower, value, today), lower(Trim(Trim(value)));
            && (IsCalendarDate(Trim(value)) ==> r == Reads(Trim(value)))
            && (!IsCalendarDate(Trim(value)) && !IsCalendarDate(today) ==> r.Unreadable?)
            && (!IsCalendarDate(Trim(value)) && IsCalendarDate(today) ==>
                  && DayOfText(today).Some?
                  && (r.Unreadable? <==> !exists day :: Names(word, DayOfText(today).value, day))
                  && forall day :: Names(word, DayOfText(today).value, day) ==>
                       && r == FromPrinted(Printed(day))
                       && (r.Reads? && IsCalendarDate(r.text) <==> FIRST_DAY <= day <= LAST_DAY))
  {
    hide IsCalendarDate, HasForm, Parts, IsDate, Iso, Trim, Names, ResolveRelativeDateWord, DayOf, CivilOf, DayFromYear;
    CalendarDateExactly(today);
    if !IsCalendarDate(Trim(value)) && IsCalendarDate(today) {
      var c := Parts(today);
      IsoOfParts(today);
      TodayPrinted(c);
      RelativeWord(lower, Trim(value), c);
      forall day | Names(lower(Trim(Trim(value))), DayOf(c), day)
        ensures ResolveTaskDate(lower, value, today) == FromPrinted(Printed(day))
        ensures Printed(day).Some? && IsCalendarDate(Printed(day).value) <==> FIRST_DAY <= day <= LAST_DAY
      {
        PrintedDay(day);
        DayRange();
      }
    }
  }

  lemma {:induction false} DayRange()
    ensures -MAX_DAYS < FIRST_DAY && LAST_DAY < MAX_DAYS
  {
  }

  lemma {:induction false} NextDatePrinted(c: Civil)
    requires IsDate(c) && 0 <= c.year <= 9999
    ensures IsDate(NextDate(c)) && Printed(DayOf(c) + 1) == Some(Iso(NextDate(c)))
    ensures 0 <= NextDate(c).year <= 9999 ==> Printed(DayOf(NextDate(c)) - 1) == Some(Iso(c))
  {
    hide CivilOf, DayOf, IsDate, NextDate, Iso;
    FourDigitYears(c);
    DatesAreDays(c);
    NextDateIsADayLater(c);
    DatesAreDays(NextDate(c));
  }

  /** A date printed from the prints of its parts. */
  lemma {:induction false} IsoFromParts(c: Civil, year: string, month: string, day: string)
    requires IsDate(c) && 0 <= c.year <= 9999
    requires PadStart(Print(c.year), 4) == year && PadStart(Print(c.month), 2) == month && PadStart(Print(c.day), 2) == day
    ensures Iso(c) == year + "-" + month + "-" + day
  {
    hide PadStart, Print, IsDate;
  }

  lemma {:induction false} PrintedParts()
    ensures PadStart(Print(1), 2) == "01" && PadStart(Print(12), 2) == "12" && PadStart(Print(31), 2) == "31"
    ensures PadStart(Print(100), 4) == "0100" && PadStart(Print(99), 4) == "0099"
  {
    PrintedSmall();
    hide Print;
    assert Zeros(1) == "0" && Zeros(2) == "00";
  }

  lemma {:induction false} PrintedSmall()
    ensures Print(1) == "1" && Print(12) == "12" && Print(31) == "31" && Print(99) == "99" && Print(100) == "100"
  {
    assert Print(3) == "3" && Print(9) == "9" && Print(10) == "10";
  }

  lemma {:induction false} PrintedLarge()
    ensures PadStart(Print(9999), 4) == "9999" && PadStart(Print(10000), 6) == "010000"
  {
    PrintedSmall();
    assert Print(999) == Print(99) + [Digit(9)] && Print(9999) == Print(999) + [Digit(9)];
    assert Print(1000) == Print(100) + [Digit(0)] && Print(10000) == Print(1000) + [Digit(0)];
    hide Print;
    assert Zeros(1) == "0";
  }

  lemma {:induction false} PrintedFirst()
    ensures Iso(Civil(100, 1, 1)) == "0100-01-01" && Iso(Civil(99, 12, 31)) == "0099-12-31"
  {
    hide PadStart, Print, Iso;
    PrintedParts();
    IsoFromParts(Civil(100, 1, 1), "0100", "01", "01");
    IsoFromParts(Civil(99, 12, 31), "0099", "12", "31");
  }

  lemma {:induction false} PrintedLast()
    ensures Iso(Civil(9999, 12, 31)) == "9999-12-31" && Iso(Civil(10000, 1, 1)) == "+010000-01"
  {
    PrintedParts();
    PrintedLarge();
    IsoFromParts(Civil(9999, 12, 31), "9999", "12", "31");
    hide PadStart, Print;
  }

  /** A relative word can give a text that is no calendar date, at either end: the year 99, which dates are
      meant not to reach, and the year 10000, whose print has lost its day. */
  lemma {:induction false} RelativeWordLeavesTheRange()
    ensures IsCalendarDate("0100-01-01") && ResolveTaskDate(w => w, "yesterday", "0100-01-01") == Reads("0099-12-31")
    ensures !IsCalendarDate("0099-12-31")
    ensures IsCalendarDate("9999-12-31") && ResolveTaskDate(w => w, "tomorrow", "9999-12-31") == Reads("+010000-01")
    ensures !IsCalendarDate("+010000-01")
  {
    FirstDate();
    LastDate();
  }

  lemma {:induction false} TurnOfYear(year: int)
    ensures IsDate(Civil(year, 12, 31)) && IsDate(Civil(year + 1, 1, 1))
    ensures NextDate(Civil(year, 12, 31)) == Civil(year + 1, 1, 1)
  {
    hide IsLeap;
  }

  lemma {:induction false} FirstDate()
    ensures IsCalendarDate("0100-01-01") && ResolveTaskDate(w => w, "yesterday", "0100-01-01") == Reads("0099-12-31")
    ensures !IsCalendarDate("0099-12-31")
  {
    var before, first := Civil(99, 12, 31), Civil(100, 1, 1);
    hide Iso, Trim, IsCalendarDate, DayOf, CivilOf, Parts, HasForm, Printed, ResolveTaskDate, IsDate, NextDate;
    TurnOfYear(99);
    PrintedFirst();
    NextDatePrinted(before);
    IsoReadsBack(before);
    CalendarDateExactly("0099-12-31");
    CalendarDateExactly("0100-01-01");
    Yesterday(first);
    assert FromPrinted(Some("0099-12-31")) == Reads("0099-12-31");
  }

  lemma {:induction false} LastDate()
    ensures IsCalendarDate("9999-12-31") && ResolveTaskDate(w => w, "tomorrow", "9999-12-31") == Reads("+010000-01")
    ensures !IsCalendarDate("+010000-01")
  {
    var last, after := Civil(9999, 12, 31), Civil(10000, 1, 1);
    hide Iso, Trim, IsCalendarDate, DayOf, CivilOf, Parts, HasForm, Printed, ResolveTaskDate, IsDate, NextDate;
    TurnOfYear(9999);
    PrintedLast();
    NextDatePrinted(last);
    IsoOfOtherYear(after);
    CalendarDateExactly("9999-12-31");
    CalendarDateExactly("+010000-01");
    Tomorrow(last);
  }

  lemma {:induction false} Yesterday(c: Civil)
    requires IsDate(c) && 0 <= c.year <= 9999 && IsCalendarDate(Iso(c))
    ensures ResolveTaskDate(w => w, "yesterday", Iso(c)) == FromPrinted(Printed(DayOf(c) - 1))
  {
    hide Iso, Trim, DayOf, CivilOf, Parts, Printed, ResolveTaskDate, IsDate;
    TrimOfTight("yesterday");
    TaskDateExactly(w => w, "yesterday", Iso(c));
    TodayPrinted(c);
    assert Names("yesterday", DayOf(c), DayOf(c) - 1);
  }

  lemma {:induction false} Tomorrow(c: Civil)
    requires IsDate(c) && 0 <= c.year <= 9999 && IsCalendarDate(Iso(c))
    ensures ResolveTaskDate(w => w, "tomorrow", Iso(c)) == FromPrinted(Printed(DayOf(c) + 1))
  {
    TrimOfTight("tomorrow");
    TaskDateExactly(w => w, "tomorrow", Iso(c));
    TodayPrinted(c);
    assert Names("tomorrow", DayOf(c), DayOf(c) + 1);
    hide Iso, Trim, IsCalendarDate, DayOf, CivilOf, Parts, Printed, ResolveTaskDate, Names, IsDate;
  }

  /** With an ordinary today, a large number of days is enough: three million lead to a text that is no calendar date,
      two hundred million to a thrown error. */
  lemma {:induction false} ManyDaysLeaveTheRange()
    ensures IsCalendarDate("2026-01-01")
    ensures var r := ResolveTaskDate(w => w, "+3000000d", "2026-01-01"); r.Reads? && !IsCalendarDate(r.text)
    ensures ResolveTaskDate(w => w, "+200000000d", "2026-01-01").Throws?
  {
    var c := Civil(2026, 1, 1);
    hide Iso, Trim, IsCalendarDate, DayOf, CivilOf, Parts, HasForm, ResolveTaskDate, IsDate, PlusDays, Value, Printed, Names, DayOfText;
    PrintedOrdinary();
    TurnOfYear(2025);
    CalendarDateExactly("2026-01-01");
    OrdinaryDay();
    TodayPrinted(c);
    ManyDays();
    TaskDateExactly(w => w, "+3000000d", "2026-01-01");
    TaskDateExactly(w => w, "+200000000d", "2026-01-01");
    NamesPlus("+3000000d", DayOf(c), 3000000);
    NamesPlus("+200000000d", DayOf(c), 200000000);
    NotAbsolute();
    PrintedRange(DayOf(c) + 3000000);
    PrintedRange(DayOf(c) + 200000000);
  }

  lemma {:induction false} NamesPlus(word: string, day: int, n: nat)
    requires PlusDays(word) == Some(n)
    ensures Names(word, day, day + n)
  {
  }

  lemma {:induction false} PrintedRange(day: int)
    ensures Printed(day).Some? <==> -MAX_DAYS <= day <= MAX_DAYS
  {
    hide CivilOf, Iso, IsDate;
  }

  lemma {:induction false} OrdinaryDay()
    ensures DayOf(Civil(2026, 1, 1)) == 20454 && LAST_DAY == 2932896
  {
  }

  lemma {:induction false} PrintedOrdinary()
    ensures Iso(Civil(2026, 1, 1)) == "2026-01-01"
  {
    PrintedParts();
    assert Print(20) == "20" && Print(202) == "202" && Print(2026) == "2026" by { assert Print(2) == "2"; }
    assert IsDate(Civil(2026, 1, 1));
    hide PadStart, Print, Iso, IsDate;
    Padded(2026);
    IsoFromParts(Civil(2026, 1, 1), "2026", "01", "01");
  }

  lemma {:induction false} Padded(n: nat)
    requires |Print(n)| == 4
    ensures PadStart(Print(n), 4) == Print(n)
  {
  }

  lemma {:induction false} NotAbsolute()
    ensures Trim("+3000000d") == "+3000000d" && Trim("+200000000d") == "+200000000d"
    ensures !IsCalendarDate("+3000000d") && !IsCalendarDate("+200000000d")
  {
    TrimOfTight("+3000000d");
    TrimOfTight("+200000000d");
  }

  lemma {:induction false} ManyDays()
    ensures PlusDays("+3000000d") == Some(3000000) && PlusDays("+200000000d") == Some(200000000)
  {
    hide PlusDays, Zeros, Digit, Tens;
    ManyZeros();
    PlusRound(3, 6);
    PlusRound(2, 8);
  }

  lemma {:induction false} ManyZeros()
    ensures "+" + ([Digit(3)] + Zeros(6)) + "" + "d" == "+3000000d"
    ensures "+" + ([Digit(2)] + Zeros(8)) + "" + "d" == "+200000000d"
    ensures 3 * Tens(6) == 3000000 && 2 * Tens(8) == 200000000
  {
    assert Zeros(2) == "00" && Zeros(4) == "0000" && Zeros(6) == "000000" && Zeros(8) == "00000000";
    assert Tens(2) == 100 && Tens(4) == 10000 && Tens(6) == 1000000;
  }

  lemma {:induction false} PlusRound(d: nat, k: nat)
    requires d < 10
    ensures PlusDays("+" + ([Digit(d)] + Zeros(k)) + "" + "d") == Some(d * Tens(k))
  {
    hide PlusDays, Zeros, Digit, Tens, Value;
    Zeroed(d, k);
    PlusDaysReads([Digit(d)] + Zeros(k), "", "d");
  }

  function Tens(k: nat): nat {
    if k == 0 then 1 else 10 * Tens(k - 1)
  }

  lemma {:induction false} Zeroed(d: nat, k: nat)
    requires d < 10
    ensures AllDigits([Digit(d)] + Zeros(k)) && Value([Digit(d)] + Zeros(k)) == d * Tens(k)
  {
    var s := [Digit(d)] + Zeros(k);
    if k == 0 {
      assert s[..0] == [];
    } else {
      Zeroed(d, k - 1);
      assert s[..|s| - 1] == [Digit(d)] + Zeros(k - 1);
    }
  }
}
