/**
 * Date strings (src/lib/dates.ts). A `Date` is a UTC-midnight instant,
 * represented by its calendar fields; `DayNumber` gives the same instant as
 * a count of days since 1970-01-01, the form the rest of the model uses.
 */
module Dates {
  import opened Common
  import Digits
  import Pattern

  datatype Date = Date(year: int, month: int, day: int)

  datatype DateError = FormatError | InvalidDate

  /** The messages of the two errors parseISODateUTC throws. */
  function ErrorMessage(e: DateError): string {
    match e
    case FormatError => "Invalid date format. Expected YYYY-MM-DD."
    case InvalidDate => "Invalid date."
  }

  predicate IsLeapYear(y: int) {
    y % 4 == 0 && (y % 100 != 0 || y % 400 == 0)
  }

  function DaysInYear(y: int): int {
    if IsLeapYear(y) then 366 else 365
  }

  function DaysInMonth(y: int, m: int): int
    requires 1 <= m <= 12
  {
    if m == 2 then (if IsLeapYear(y) then 29 else 28)
    else if m == 4 || m == 6 || m == 9 || m == 11 then 30
    else 31
  }

  /** The fields name a day of the proleptic Gregorian calendar. */
  predicate IsCalendarDate(d: Date) {
    1 <= d.month <= 12 && 1 <= d.day <= DaysInMonth(d.year, d.month)
  }

  /** The calendar fields written in a string that has the date shape. */
  function FieldsOf(s: string): Date
    requires Pattern.DateShaped(s)
  {
    assert Digits.AllDigits(s[..4]) && Digits.AllDigits(s[5..7]) && Digits.AllDigits(s[8..]) by {
      assert forall i :: 0 <= i < 4 ==> s[..4][i] == s[i];
      assert forall i :: 0 <= i < 2 ==> s[5..7][i] == s[5 + i] && s[8..][i] == s[8 + i];
    }
    Date(Digits.Value(s[..4]), Digits.Value(s[5..7]), Digits.Value(s[8..]))
  }

  /**
   * parseISODateUTC: the shape check runs first and fails with the format
   * error; only a well-shaped string reaches the calendar check.
   */
  function ParseISODateUTC(s: string): (r: Result<Date, DateError>)
    ensures !Pattern.DateShaped(s) ==> r == Failure(FormatError)
    ensures Pattern.DateShaped(s) ==>
      (r.Success? <==> IsCalendarDate(FieldsOf(s))) && (r.Failure? ==> r.error == InvalidDate)
    ensures r.Success? ==> IsCalendarDate(r.value) && 0 <= r.value.year <= 9999
  {
    Pattern.DatePatternShape(s);
    if !Pattern.Matches(Pattern.DatePattern, s) then Failure(FormatError)
    else
      var d := FieldsOf(s);
      Digits.ValueBound(s[..4]);
      if IsCalendarDate(d) then Success(d) else Failure(InvalidDate)
  }

  /** The two failures are told apart by their messages. */
  lemma ErrorMessagesDiffer()
    ensures ErrorMessage(FormatError) != ErrorMessage(InvalidDate)
  {
    assert ErrorMessage(InvalidDate)[0..13] == "Invalid date.";
    assert ErrorMessage(FormatError)[12] != ErrorMessage(InvalidDate)[12];
  }

  /** `slice(0, 10)`: the first ten characters, or the whole string when it is shorter. */
  function Slice10(s: string): (r: string)
    ensures |r| == Min(10, |s|) && r <= s
  {
    if |s| <= 10 then s else s[..10]
  }

  /** The year as toISOString writes it: four digits, or a sign and six digits outside 0..9999. */
  function YearText(y: int): string {
    if 0 <= y <= 9999 then Digits.Fixed(y, 4)
    else (if y < 0 then "-" else "+") + Digits.Fixed(if y < 0 then -y else y, 6)
  }

  /** toISOString of a UTC-midnight instant. */
  function ToISOString(d: Date): string
    requires IsCalendarDate(d)
  {
    YearText(d.year) + "-" + Digits.Fixed(d.month, 2) + "-" + Digits.Fixed(d.day, 2) + "T00:00:00.000Z"
  }

  function ToISODateUTC(d: Date): string
    requires IsCalendarDate(d)
  {
    Slice10(ToISOString(d))
  }

  /** todayISODate, with the clock's toISOString passed in. */
  function TodayISODate(nowIso: string): string {
    Slice10(nowIso)
  }

  lemma ShapedDigits(s: string)
    requires Pattern.DateShaped(s)
    ensures Digits.AllDigits(s[..4]) && Digits.AllDigits(s[5..7]) && Digits.AllDigits(s[8..])
    ensures s == s[..4] + "-" + s[5..7] + "-" + s[8..]
  {
    assert forall i :: 0 <= i < 4 ==> s[..4][i] == s[i];
    assert forall i :: 0 <= i < 2 ==> s[5..7][i] == s[5 + i] && s[8..][i] == s[8 + i];
  }

  /** The fields of a well-shaped string, written back, give the string. */
  lemma FormatFieldsOf(s: string)
    requires Pattern.DateShaped(s)
    ensures 0 <= FieldsOf(s).year <= 9999
    ensures YearText(FieldsOf(s).year) + "-" + Digits.Fixed(FieldsOf(s).month, 2) + "-" + Digits.Fixed(FieldsOf(s).day, 2) == s
  {
    ShapedDigits(s);
    var d := FieldsOf(s);
    Digits.ValueBound(s[..4]);
    Digits.FixedOfValue(s[..4]);
    Digits.FixedOfValue(s[5..7]);
    Digits.FixedOfValue(s[8..]);
  }

  /** Every accepted string is given back by toISODateUTC of its parse. */
  lemma ParseThenFormat(s: string)
    requires ParseISODateUTC(s).Success?
    ensures ToISODateUTC(ParseISODateUTC(s).value) == s
  {
    var d := ParseISODateUTC(s).value;
    assert Pattern.DateShaped(s) && d == FieldsOf(s);
    FormatFieldsOf(s);
    var iso := ToISOString(d);
    assert iso == s + "T00:00:00.000Z";
    assert iso[..10] == s;
  }

  /** Every calendar date with a four-digit year is given back by parsing its toISODateUTC. */
  lemma FormatThenParse(d: Date)
    requires IsCalendarDate(d) && 0 <= d.year <= 9999
    ensures ParseISODateUTC(ToISODateUTC(d)) == Success(d)
  {
    var y, m, dd := Digits.Fixed(d.year, 4), Digits.Fixed(d.month, 2), Digits.Fixed(d.day, 2);
    var t := y + "-" + m + "-" + dd;
    assert ToISOString(d) == t + "T00:00:00.000Z";
    assert ToISODateUTC(d) == t;
    assert t[..4] == y && t[5..7] == m && t[8..] == dd;
    assert Pattern.DateShaped(t);
    assert Digits.Pow10(4) == 10000 && Digits.Pow10(2) == 100;
    Digits.ValueOfFixed(d.year, 4);
    Digits.ValueOfFixed(d.month, 2);
    Digits.ValueOfFixed(d.day, 2);
    assert FieldsOf(t) == d;
  }

  /** Day offset of the first day of month `m` within year `y`. */
  function DaysBeforeMonth(y: int, m: int): int
    requires 1 <= m <= 12
  {
    (match m
     case 1 => 0 case 2 => 31 case 3 => 59 case 4 => 90 case 5 => 120 case 6 => 151
     case 7 => 181 case 8 => 212 case 9 => 243 case 10 => 273 case 11 => 304 case _ => 334)
    + (if m > 2 && IsLeapYear(y) then 1 else 0)
  }

  /** Day number of 1 January of year `y`, counted from 1 January 1970. */
  function YearStart(y: int): int
    decreases if y >= 1970 then y - 1970 else 1970 - y
  {
    if y == 1970 then 0
    else if y > 1970 then YearStart(y - 1) + DaysInYear(y - 1)
    else YearStart(y + 1) - DaysInYear(y)
  }

  /** Days since 1970-01-01 of a calendar date: the instant `new Date(...)` builds, in days. */
  function DayNumber(d: Date): int
    requires IsCalendarDate(d)
  {
    YearStart(d.year) + DaysBeforeMonth(d.year, d.month) + d.day - 1
  }

  lemma MonthStep(y: int, m: int)
    requires 1 <= m < 12
    ensures DaysBeforeMonth(y, m + 1) == DaysBeforeMonth(y, m) + DaysInMonth(y, m)
  {
  }

  lemma {:induction false} MonthsOrdered(y: int, m1: int, m2: int)
    requires 1 <= m1 < m2 <= 12
    ensures DaysBeforeMonth(y, m1) + DaysInMonth(y, m1) <= DaysBeforeMonth(y, m2)
    decreases m2 - m1
  {
    MonthStep(y, m1);
    if m2 > m1 + 1 {
      MonthsOrdered(y, m1 + 1, m2);
      MonthStep(y, m1 + 1);
    }
  }

  lemma YearStep(y: int)
    ensures YearStart(y + 1) == YearStart(y) + DaysInYear(y)
  {
  }

  lemma {:induction false} YearsOrdered(y1: int, y2: int)
    requires y1 < y2
    ensures YearStart(y1) + DaysInYear(y1) <= YearStart(y2)
    decreases y2 - y1
  {
    YearStep(y1);
    if y2 > y1 + 1 {
      YearsOrdered(y1 + 1, y2);
    }
  }

  /** A calendar date falls inside its own year. */
  lemma WithinYear(d: Date)
    requires IsCalendarDate(d)
    ensures YearStart(d.year) <= DayNumber(d) < YearStart(d.year) + DaysInYear(d.year)
  {
    if d.month < 12 {
      MonthsOrdered(d.year, d.month, 12);
    }
  }

  predicate Before(a: Date, b: Date) {
    a.year < b.year || (a.year == b.year && (a.month < b.month || (a.month == b.month && a.day < b.day)))
  }

  /** DayNumber is strictly increasing in calendar order. */
  lemma DayNumberMonotone(a: Date, b: Date)
    requires IsCalendarDate(a) && IsCalendarDate(b) && Before(a, b)
    ensures DayNumber(a) < DayNumber(b)
  {
    if a.year < b.year {
      WithinYear(a);
      WithinYear(b);
      YearsOrdered(a.year, b.year);
    } else if a.month < b.month {
      MonthsOrdered(a.year, a.month, b.month);
    }
  }

  /**
   * Distinct calendar dates have distinct day numbers, so grouping by day
   * number groups exactly as grouping by the toISODateUTC key does.
   */
  lemma DayNumberInjective(a: Date, b: Date)
    requires IsCalendarDate(a) && IsCalendarDate(b)
    ensures DayNumber(a) == DayNumber(b) ==> a == b
  {
    if Before(a, b) {
      DayNumberMonotone(a, b);
    } else if Before(b, a) {
      DayNumberMonotone(b, a);
    }
  }
}
