/** The proleptic Gregorian calendar behind src/schedule.rs. A date is its day number,
    with 1 for the first of January of the year 1, which was a Monday. */
module Calendar {
  predicate Leap(y: int) {
    y % 4 == 0 && (y % 100 != 0 || y % 400 == 0)
  }

  /** How many days the calendar gives a month. */
  function MonthLength(y: int, m: int): int {
    if m == 2 then (if Leap(y) then 29 else 28)
    else if m == 4 || m == 6 || m == 9 || m == 11 then 30 else 31
  }

  function DaysBeforeYear(y: int): int {
    365 * (y - 1) + (y - 1) / 4 - (y - 1) / 100 + (y - 1) / 400
  }

  function DaysBeforeMonth(y: int, m: int): int
    requires 1 <= m <= 12
  {
    var leap := if Leap(y) then 1 else 0;
    match m
    case 1 => 0
    case 2 => 31
    case 3 => 59 + leap
    case 4 => 90 + leap
    case 5 => 120 + leap
    case 6 => 151 + leap
    case 7 => 181 + leap
    case 8 => 212 + leap
    case 9 => 243 + leap
    case 10 => 273 + leap
    case 11 => 304 + leap
    case 12 => 334 + leap
  }

  function FirstOfMonth(y: int, m: int): int
    requires 1 <= m <= 12
  {
    DaysBeforeYear(y) + DaysBeforeMonth(y, m) + 1
  }

  function NextMonth(y: int, m: int): (r: (int, int))
    requires 1 <= m <= 12
    ensures 1 <= r.1 <= 12 && 12 * r.0 + r.1 == 12 * y + m + 1
  {
    if m == 12 then (y + 1, 1) else (y, m + 1)
  }

  lemma YearLength(y: int)
    ensures DaysBeforeYear(y + 1) - DaysBeforeYear(y) == if Leap(y) then 366 else 365
  {
    DivNext(y - 1, 4);
    DivNext(y - 1, 100);
    DivNext(y - 1, 400);
    Centuries(y);
  }

  lemma Centuries(y: int)
    ensures y % 400 == 0 ==> y % 100 == 0
    ensures y % 100 == 0 ==> y % 4 == 0
  {
    if y % 400 == 0 {
      Hundreds(y, y / 400);
    }
    if y % 100 == 0 {
      Fours(y, y / 100);
    }
  }

  lemma Hundreds(y: int, q: int)
    requires y == 400 * q
    ensures y % 100 == 0
  {
  }

  lemma Fours(y: int, q: int)
    requires y == 100 * q
    ensures y % 4 == 0
  {
  }

  lemma DivNext(n: int, k: int)
    requires k == 4 || k == 100 || k == 400
    ensures (n + 1) / k == n / k + (if (n + 1) % k == 0 then 1 else 0)
  {
  }

  /** The number of days the source computes for a month, from the first days of it and
      of the next one. */
  function DaysInMonth(y: int, m: int): int
    requires 1 <= m <= 12
  {
    var (ny, nm) := NextMonth(y, m);
    FirstOfMonth(ny, nm) - FirstOfMonth(y, m)
  }

  lemma DaysInMonthIsLength(y: int, m: int)
    requires 1 <= m <= 12
    ensures DaysInMonth(y, m) == MonthLength(y, m)
  {
    YearLength(y);
  }

  function ClampDay(y: int, m: int, day: int): int
    requires 1 <= m <= 12
  {
    var most := DaysInMonth(y, m);
    var d := if day < most then day else most;
    if d > 1 then d else 1
  }

  /** A day past the end of a short month is its last day, one before the first is the
      first; any other is itself. */
  lemma ClampsToMonthEnd(y: int, m: int, day: int)
    requires 1 <= m <= 12
    ensures ClampDay(y, m, day)
         == if day < 1 then 1 else if day <= MonthLength(y, m) then day else MonthLength(y, m)
  {
    DaysInMonthIsLength(y, m);
  }

  ghost predicate InMonth(d: int, y: int, m: int) {
    1 <= m <= 12 && FirstOfMonth(y, m) <= d < FirstOfMonth(y, m) + MonthLength(y, m)
  }

  // ---- The month a date falls in ----------------------------------------------------

  function YearFrom(d: int, y: int): (r: int)
    requires DaysBeforeYear(y) < d
    ensures DaysBeforeYear(r) < d <= DaysBeforeYear(r + 1)
    decreases d - DaysBeforeYear(y)
  {
    YearLength(y);
    if d <= DaysBeforeYear(y + 1) then y else YearFrom(d, y + 1)
  }

  function Year(d: int): (y: int)
    ensures DaysBeforeYear(y) < d <= DaysBeforeYear(y + 1)
  {
    var y := if d > 0 then (d - 1) / 366 + 1 else (d - 1) / 365;
    YearFrom(d, y)
  }

  function MonthFrom(d: int, y: int, m: int): (r: int)
    requires 1 <= m <= 12 && FirstOfMonth(y, m) <= d <= DaysBeforeYear(y + 1)
    ensures InMonth(d, y, r)
    decreases 12 - m
  {
    YearLength(y);
    DaysInMonthIsLength(y, m);
    if m == 12 || d < FirstOfMonth(y, m + 1) then m else MonthFrom(d, y, m + 1)
  }

  function Month(d: int): (m: int)
    ensures InMonth(d, Year(d), m)
  {
    MonthFrom(d, Year(d), 1)
  }

  /** Months follow each other: a later month starts after every earlier one has ended. */
  lemma {:induction false} MonthsInOrder(y: int, m: int, ny: int, nm: int)
    requires 1 <= m <= 12 && 1 <= nm <= 12 && 12 * y + m < 12 * ny + nm
    ensures FirstOfMonth(y, m) + MonthLength(y, m) <= FirstOfMonth(ny, nm)
    decreases 12 * ny + nm - 12 * y - m
  {
    DaysInMonthIsLength(y, m);
    var (y', m') := NextMonth(y, m);
    if 12 * y' + m' < 12 * ny + nm {
      MonthsInOrder(y', m', ny, nm);
    } else {
      assert y' == ny && m' == nm;
    }
  }

  /** A date lies in exactly one month. */
  lemma MonthUnique(d: int, y: int, m: int)
    requires InMonth(d, y, m)
    ensures y == Year(d) && m == Month(d)
  {
    var y', m' := Year(d), Month(d);
    if 12 * y + m < 12 * y' + m' {
      MonthsInOrder(y, m, y', m');
    } else if 12 * y' + m' < 12 * y + m {
      MonthsInOrder(y', m', y, m);
    }
  }

  /** A month and a day of it name a date, and the date names them back. */
  function FromYmd(y: int, m: int, day: int): int
    requires 1 <= m <= 12
  {
    FirstOfMonth(y, m) + day - 1
  }

  lemma YmdRoundTrip(y: int, m: int, day: int)
    requires 1 <= m <= 12 && 1 <= day <= MonthLength(y, m)
    ensures var d := FromYmd(y, m, day);
            Year(d) == y && Month(d) == m && d - FirstOfMonth(Year(d), Month(d)) + 1 == day
  {
    MonthUnique(FromYmd(y, m, day), y, m);
  }

  // ---- Weeks -----------------------------------------------------------------------

  /** Days since Monday. */
  function Weekday(d: int): (w: int)
    ensures 0 <= w < 7
  {
    (d - 1) % 7
  }

  function WeekStart(d: int): int {
    d - Weekday(d)
  }

  /** Two dates that fix the calendar: the first of January 1970, a Thursday, and the leap
      day of the year 2000, a Tuesday. */
  lemma KnownDates()
    ensures FromYmd(1970, 1, 1) == 719_163 && Weekday(719_163) == 3
    ensures FromYmd(2000, 2, 29) == 719_163 + 11_016 && Weekday(719_163 + 11_016) == 1
  {
  }

  /** The Monday of a week is the latest Monday that is not after the date. */
  lemma WeekStartIsMonday(d: int)
    ensures Weekday(WeekStart(d)) == 0 && WeekStart(d) <= d < WeekStart(d) + 7
    ensures forall e :: WeekStart(d) <= e < WeekStart(d) + 7 ==> WeekStart(e) == WeekStart(d)
  {
  }
}
