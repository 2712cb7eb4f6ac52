/** The static calendar helpers of the RainMan class: the month-name table and
    length_month, with the Gregorian leap-year rule that DateTime.IsLeapYear applies. */
module Calendar {
  import opened Wrappers

  datatype CalendarError =
    | MonthOutOfRange(month: int)  // the default branch of the switch: Trace.Fail, then -1
    | YearOutOfRange(year: int)    // DateTime.IsLeapYear throws outside MinYear..MaxYear

  /** The years DateTime.IsLeapYear accepts. */
  const MinYear: int := 1
  const MaxYear: int := 9999

  /** Three-letter month abbreviations; month m is at index m - 1. */
  const MonthNames: seq<string> :=
    ["JAN", "FEB", "MAR", "APR", "MAY", "JUN", "JUL", "AUG", "SEP", "OCT", "NOV", "DEC"]

  /** Day counts of a common (non-leap) year, an independent reference for LengthMonth. */
  const CommonYearDays: seq<nat> := [31, 28, 31, 30, 31, 30, 31, 31, 30, 31, 30, 31]

  /** Gregorian rule: every fourth year, except centuries not divisible by 400. */
  function IsLeapYear(year: int): (leap: bool)
    ensures leap ==> year % 4 == 0
    ensures year % 400 == 0 ==> leap
    ensures year % 4 == 0 && year % 100 != 0 ==> leap
    ensures year % 100 == 0 && year % 400 != 0 ==> !leap
  {
    year % 4 == 0 && (year % 100 != 0 || year % 400 == 0)
  }

  /** length_month(month, year): the number of days of a month, or the error the
      original raises for an invalid month (or for a February of a year that
      DateTime.IsLeapYear refuses). */
  function LengthMonth(month: int, year: int): (r: Result<nat, CalendarError>)
    ensures r.Ok? <==> 1 <= month <= |MonthNames| && (month == 2 ==> MinYear <= year <= MaxYear)
    ensures r.Ok? ==> 28 <= r.value <= 31
    ensures r.Err? && !(1 <= month <= |MonthNames|) ==> r.error == MonthOutOfRange(month)
    ensures r.Err? && 1 <= month <= |MonthNames| ==> r.error == YearOutOfRange(year)
  {
    if month in {1, 3, 5, 7, 8, 10, 12} then Ok(31)
    else if month in {4, 6, 9, 11} then Ok(30)
    else if month == 2 then
      if year < MinYear || MaxYear < year then Err(YearOutOfRange(year))
      else if IsLeapYear(year) then Ok(29) else Ok(28)
    else Err(MonthOutOfRange(month))
  }

  /** LengthMonth agrees with the common-year table plus one leap day in February. */
  lemma LengthMonthMatchesTable(month: int, year: int)
    requires 1 <= month <= 12 && (month == 2 ==> MinYear <= year <= MaxYear)
    ensures LengthMonth(month, year)
         == Ok(CommonYearDays[month - 1] + if month == 2 && IsLeapYear(year) then 1 else 0)
  {
  }

  /** February has 29 days exactly in leap years and 28 otherwise. */
  lemma FebruaryFollowsLeapRule(year: int)
    requires MinYear <= year <= MaxYear
    ensures LengthMonth(2, year) == Ok(29) <==> IsLeapYear(year)
    ensures LengthMonth(2, year) == Ok(28) <==> !IsLeapYear(year)
  {
  }

  /** The examples of the Gregorian rule: 2000 and 2024 are leap years, 1900 and 2021 are not. */
  lemma LeapYearExamples()
    ensures LengthMonth(2, 2000) == Ok(29) && LengthMonth(2, 1900) == Ok(28)
    ensures LengthMonth(2, 2024) == Ok(29) && LengthMonth(2, 2021) == Ok(28)
  {
  }

  /** Sum of the lengths of months 1..n of a year. */
  function DaysThrough(n: nat, year: int): (d: nat)
    requires n <= 12 && MinYear <= year <= MaxYear
  {
    if n == 0 then 0 else DaysThrough(n - 1, year) + LengthMonth(n, year).value
  }

  /** The twelve month lengths add up to 365 days, or 366 in a leap year. */
  lemma YearLength(year: int)
    requires MinYear <= year <= MaxYear
    ensures DaysThrough(12, year) == if IsLeapYear(year) then 366 else 365
  {
    var feb := if IsLeapYear(year) then 29 else 28;
    assert DaysThrough(1, year) == 31;
    assert DaysThrough(2, year) == 59 - 28 + feb;
    assert DaysThrough(3, year) == 90 - 28 + feb;
    assert DaysThrough(4, year) == 120 - 28 + feb;
    assert DaysThrough(5, year) == 151 - 28 + feb;
    assert DaysThrough(6, year) == 181 - 28 + feb;
    assert DaysThrough(7, year) == 212 - 28 + feb;
    assert DaysThrough(8, year) == 243 - 28 + feb;
    assert DaysThrough(9, year) == 273 - 28 + feb;
    assert DaysThrough(10, year) == 304 - 28 + feb;
    assert DaysThrough(11, year) == 334 - 28 + feb;
  }

  /** The calendar repeats every 400 years. */
  lemma GregorianCycle(month: int, year: int)
    requires MinYear <= year && year + 400 <= MaxYear
    ensures LengthMonth(month, year) == LengthMonth(month, year + 400)
  {
    assert (year + 400) % 4 == year % 4 && (year + 400) % 100 == year % 100;
    assert (year + 400) % 400 == year % 400;
  }

  /** The month range that length_month accepts is the index range of the name table,
      and the names are distinct three-letter codes. */
  lemma MonthNamesCoverMonths(month: int, year: int)
    ensures LengthMonth(month, year).Ok? ==> |MonthNames[month - 1]| == 3
    ensures forall i, j :: 0 <= i < j < |MonthNames| ==> MonthNames[i] != MonthNames[j]
  {
  }
}
