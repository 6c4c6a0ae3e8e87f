/** The proleptic Gregorian calendar as Go's time package counts it, on day numbers: day 1 is
    Monday, 1 January of year 1. Windows are inclusive at both ends, as the DATE queries are
    (applyDateRange in backend/internal/repository/hrm_common.go). */
module Calendar {

  type Day = int

  datatype DateRange = DateRange(from: Day, to: Day)
  {
    predicate Has(day: Day) { from <= day <= to }
    function Length(): int { to - from + 1 }
  }

  predicate IsLeap(year: int) {
    year % 4 == 0 && (year % 100 != 0 || year % 400 == 0)
  }

  /** Number of the day before 1 January. */
  function DaysBeforeYear(year: int): Day {
    var y := year - 1;
    365 * y + y / 4 - y / 100 + y / 400
  }

  function DaysInMonth(year: int, month: int): int
    requires 1 <= month <= 12
  {
    if month == 2 then (if IsLeap(year) then 29 else 28)
    else if month in {4, 6, 9, 11} then 30
    else 31
  }

  function DaysBeforeMonth(year: int, month: int): int
    requires 1 <= month <= 13
  {
    if month == 1 then 0 else DaysBeforeMonth(year, month - 1) + DaysInMonth(year, month - 1)
  }

  function DateOf(year: int, month: int, day: int): Day
    requires 1 <= month <= 12
  {
    DaysBeforeYear(year) + DaysBeforeMonth(year, month) + day
  }

  /** time.Date(year, month, day, ...): a month past December rolls into the next year, and a
      day before or past the month counts on from its first day. */
  function Date(year: int, month: int, day: int): Day {
    DateOf(year + (month - 1) / 12, (month - 1) % 12 + 1, day)
  }

  /** Sunday is 0, as time.Weekday counts. */
  function Weekday(day: Day): int {
    day % 7
  }

  /** The year a day falls in, by the 400-, 100-, 4- and 1-year cycles. */
  function YearOf(day: Day): int {
    var d := day - 1;
    var n400, d400 := d / 146097, d % 146097;
    var n100 := if d400 / 36524 == 4 then 3 else d400 / 36524;
    var d100 := d400 - 36524 * n100;
    var n4, d4 := d100 / 1461, d100 % 1461;
    var n1 := if d4 / 365 == 4 then 3 else d4 / 365;
    400 * n400 + 100 * n100 + 4 * n4 + n1 + 1
  }

  /** calendarYear: the leave year. */
  function CalendarYear(year: int): DateRange {
    DateRange(Date(year, 1, 1), Date(year, 12, 31))
  }

  /** monthRange: the payroll period; its end is the day before the same day next month. */
  function MonthRange(year: int, month: int): DateRange {
    DateRange(Date(year, month, 1), Date(year, month + 1, 1 - 1))
  }

  /** Days before 1 January, spelled out on cycle counts. */
  lemma YearStartOnCycles(n400: int, n100: int, n4: int, n1: int)
    requires 0 <= n100 <= 3 && 0 <= n4 <= 24 && 0 <= n1 <= 3
    ensures DaysBeforeYear(400 * n400 + 100 * n100 + 4 * n4 + n1 + 1)
         == 146097 * n400 + 36524 * n100 + 1461 * n4 + 365 * n1
  {
    var y := 400 * n400 + 100 * n100 + 4 * n4 + n1;
    assert y / 4 == 100 * n400 + 25 * n100 + n4;
    assert y / 100 == 4 * n400 + n100;
    assert y / 400 == n400;
  }

  lemma Fourths(n: int)
    ensures n / 4 - (n - 1) / 4 == if n % 4 == 0 then 1 else 0
  {
  }

  lemma Hundredths(n: int)
    ensures n / 100 - (n - 1) / 100 == if n % 100 == 0 then 1 else 0
  {
  }

  lemma FourHundredths(n: int)
    ensures n / 400 - (n - 1) / 400 == if n % 400 == 0 then 1 else 0
    ensures n % 400 == 0 ==> n % 100 == 0
    ensures n % 100 == 0 ==> n % 4 == 0
  {
  }

  /** A year has 365 days, 366 in a leap year. */
  lemma YearLength(year: int)
    ensures DaysBeforeYear(year + 1) - DaysBeforeYear(year) == if IsLeap(year) then 366 else 365
  {
    Fourths(year);
    Hundredths(year);
    FourHundredths(year);
  }

  lemma YearStartsIncrease(a: int, b: int)
    requires a <= b
    ensures DaysBeforeYear(a) + 365 * (b - a) <= DaysBeforeYear(b)
    decreases b - a
  {
    if a < b {
      YearStartsIncrease(a, b - 1);
      YearLength(b - 1);
    }
  }

  lemma MonthsFillYear(year: int)
    ensures DaysBeforeMonth(year, 13) == DaysBeforeMonth(year, 12) + 31 == if IsLeap(year) then 366 else 365
  {
    var leap := if IsLeap(year) then 1 else 0;
    assert DaysBeforeMonth(year, 2) == 31;
    assert DaysBeforeMonth(year, 3) == 59 + leap;
    assert DaysBeforeMonth(year, 5) == 120 + leap;
    assert DaysBeforeMonth(year, 7) == 181 + leap;
    assert DaysBeforeMonth(year, 9) == 243 + leap;
    assert DaysBeforeMonth(year, 11) == 304 + leap;
  }

  lemma MonthStartsIncrease(year: int, a: int, b: int)
    requires 1 <= a <= b <= 13
    ensures DaysBeforeMonth(year, a) + 28 * (b - a) <= DaysBeforeMonth(year, b)
    decreases b - a
  {
    if a < b {
      MonthStartsIncrease(year, a, b - 1);
    }
  }

  /** A date inside the year counts from the start of its month. */
  lemma DateInYear(year: int, month: int, day: int)
    requires 1 <= month <= 13
    ensures Date(year, month, day) == DaysBeforeYear(year) + DaysBeforeMonth(year, month) + day
  {
    if month == 13 {
      MonthThirteen(year, day);
    } else {
      assert Date(year, month, day) == DateOf(year, month, day);
    }
  }

  lemma MonthThirteen(year: int, day: int)
    ensures Date(year, 13, day) == DaysBeforeYear(year) + DaysBeforeMonth(year, 13) + day
  {
    MonthsFillYear(year);
    YearLength(year);
    assert Date(year, 13, day) == DateOf(year + 1, 1, day);
  }

  /** The bounds of a leave year: it starts where the last one ended. */
  lemma CalendarYearBounds(year: int)
    ensures CalendarYear(year) == DateRange(DaysBeforeYear(year) + 1, DaysBeforeYear(year + 1))
  {
    DateInYear(year, 1, 1);
    DateInYear(year, 12, 31);
    MonthsFillYear(year);
    YearLength(year);
  }

  /** YearOf is the only year whose window has the day. */
  lemma YearOfIff(day: Day, year: int)
    ensures YearOf(day) == year <==> CalendarYear(year).Has(day)
  {
    YearOfHasDay(day);
    CalendarYearBounds(year);
    CalendarYearBounds(YearOf(day));
    if YearOf(day) < year {
      YearStartsIncrease(YearOf(day) + 1, year);
    }
    if year < YearOf(day) {
      YearStartsIncrease(year + 1, YearOf(day));
    }
  }

  /** A day count split into 400-, 100-, 4- and 1-year cycles and days left over. */
  lemma Cycles(d: int) returns (n400: int, n100: int, n4: int, n1: int, rest: int)
    ensures d == 146097 * n400 + 36524 * n100 + 1461 * n4 + 365 * n1 + rest
    ensures 0 <= n100 <= 3 && 0 <= n4 <= 24 && 0 <= n1 <= 3 && 0 <= rest <= 365
    ensures rest == 365 ==> n1 == 3 && (n4 < 24 || n100 == 3)
    ensures YearOf(d + 1) == 400 * n400 + 100 * n100 + 4 * n4 + n1 + 1
  {
    n400 := d / 146097;
    var d400 := d % 146097;
    n100 := if d400 / 36524 == 4 then 3 else d400 / 36524;
    var d100 := d400 - 36524 * n100;
    n4 := d100 / 1461;
    var d4 := d100 % 1461;
    n1 := if d4 / 365 == 4 then 3 else d4 / 365;
    rest := d4 - 365 * n1;
  }

  lemma YearOfHasDay(day: Day)
    ensures DaysBeforeYear(YearOf(day)) < day <= DaysBeforeYear(YearOf(day) + 1)
  {
    var n400, n100, n4, n1, rest := Cycles(day - 1);
    YearStartOnCycles(n400, n100, n4, n1);
    if n1 < 3 {
      YearStartOnCycles(n400, n100, n4, n1 + 1);
    } else if n4 < 24 {
      YearStartOnCycles(n400, n100, n4 + 1, 0);
    } else if n100 < 3 {
      YearStartOnCycles(n400, n100 + 1, 0, 0);
    } else {
      YearStartOnCycles(n400 + 1, 0, 0, 0);
    }
  }

  /** The bounds of a payroll month: it starts where the last one ended and has DaysInMonth days. */
  lemma MonthRangeBounds(year: int, month: int)
    requires 1 <= month <= 12
    ensures MonthRange(year, month).from == DaysBeforeYear(year) + DaysBeforeMonth(year, month) + 1
    ensures MonthRange(year, month).to == DaysBeforeYear(year) + DaysBeforeMonth(year, month + 1)
    ensures MonthRange(year, month).Length() == DaysInMonth(year, month)
  {
    DateInYear(year, month, 1);
    DateInYear(year, month + 1, 0);
  }

  /** How many of the payroll months m .. 12 have the day. */
  function MonthsWith(year: int, month: int, day: Day): nat
    requires 1 <= month <= 13
    decreases 13 - month
  {
    if month == 13 then 0
    else (if MonthRange(year, month).Has(day) then 1 else 0) + MonthsWith(year, month + 1, day)
  }

  lemma {:induction false} MonthsWithFrom(year: int, month: int, day: Day)
    requires 1 <= month <= 13
    ensures MonthsWith(year, month, day) ==
            if DaysBeforeMonth(year, month) < day - DaysBeforeYear(year) <= DaysBeforeMonth(year, 13)
            then 1 else 0
    decreases 13 - month
  {
    if month < 13 {
      MonthsWithFrom(year, month + 1, day);
      MonthRangeBounds(year, month);
      MonthStartsIncrease(year, month, month + 1);
      MonthStartsIncrease(year, month + 1, 13);
    }
  }

  /** In every Gregorian year the twelve payroll months partition the leave year: a day of the
      year lies in exactly one of them, any other day in none. */
  lemma MonthsPartitionYear(year: int, day: Day)
    ensures MonthsWith(year, 1, day) == if CalendarYear(year).Has(day) then 1 else 0
  {
    MonthsWithFrom(year, 1, day);
    MonthsFillYear(year);
    CalendarYearBounds(year);
    YearLength(year);
  }

  /** Different payroll months share no day. */
  lemma MonthsAreDisjoint(year: int, month: int, otherYear: int, otherMonth: int, day: Day)
    requires 1 <= month <= 12 && 1 <= otherMonth <= 12
    requires MonthRange(year, month).Has(day) && MonthRange(otherYear, otherMonth).Has(day)
    ensures year == otherYear && month == otherMonth
  {
    MonthInYear(year, month, day);
    MonthInYear(otherYear, otherMonth, day);
    YearOfIff(day, year);
    YearOfIff(day, otherYear);
    if month < otherMonth {
      LaterMonthIsLater(year, month, otherMonth);
    } else if otherMonth < month {
      LaterMonthIsLater(year, otherMonth, month);
    }
  }

  lemma LaterMonthIsLater(year: int, month: int, later: int)
    requires 1 <= month < later <= 12
    ensures MonthRange(year, month).to < MonthRange(year, later).from
  {
    MonthRangeBounds(year, month);
    MonthRangeBounds(year, later);
    MonthStartsIncrease(year, month + 1, later);
  }

  lemma MonthInYear(year: int, month: int, day: Day)
    requires 1 <= month <= 12 && MonthRange(year, month).Has(day)
    ensures CalendarYear(year).Has(day)
  {
    MonthRangeBounds(year, month);
    MonthStartsIncrease(year, 1, month);
    MonthStartsIncrease(year, month + 1, 13);
    MonthsFillYear(year);
    YearLength(year);
    CalendarYearBounds(year);
  }

  /** The days of a year that starts in March before each of its months: five months have 153
      days, wherever one starts counting, and the leap day is the last of all. */
  lemma MonthStartsFromMarch(year: int, month: int)
    requires 1 <= month <= 12
    ensures DaysBeforeMonth(year, month) + 306
         == (153 * ((month + 9) % 12) + 2) / 5 + (if month <= 2 then 0 else if IsLeap(year) then 366 else 365)
  {
    var leap := if IsLeap(year) then 1 else 0;
    assert DaysBeforeMonth(year, 2) == 31;
    assert DaysBeforeMonth(year, 3) == 59 + leap && DaysBeforeMonth(year, 4) == 90 + leap;
    assert DaysBeforeMonth(year, 5) == 120 + leap && DaysBeforeMonth(year, 6) == 151 + leap;
    assert DaysBeforeMonth(year, 7) == 181 + leap && DaysBeforeMonth(year, 8) == 212 + leap;
    assert DaysBeforeMonth(year, 9) == 243 + leap && DaysBeforeMonth(year, 10) == 273 + leap;
    assert DaysBeforeMonth(year, 11) == 304 + leap && DaysBeforeMonth(year, 12) == 334 + leap;
  }

  /** Every date in one formula, without a table of months: years that start in March put the
      leap day last, and 153 days make five months. */
  lemma DateIsDayCount(year: int, month: int, day: int)
    requires 1 <= month <= 12
    ensures var y := if month <= 2 then year - 1 else year;
            Date(year, month, day)
            == 365 * y + y / 4 - y / 100 + y / 400 + (153 * ((month + 9) % 12) + 2) / 5 + day - 306
  {
    DateInYear(year, month, day);
    MonthStartsFromMarch(year, month);
    YearLength(year);
  }

  /** Anchors: the epoch of Unix time was a Thursday; 29 February 2000 was a Tuesday. */
  lemma KnownDays()
    ensures Date(1970, 1, 1) == 719163 && Weekday(Date(1970, 1, 1)) == 4
    ensures Date(2000, 2, 29) + 1 == Date(2000, 3, 1) && Weekday(Date(2000, 2, 29)) == 2
    ensures Date(1900, 2, 28) + 1 == Date(1900, 3, 1)
  {
    assert DaysBeforeMonth(2000, 2) == 31 && DaysBeforeMonth(2000, 3) == 60;
    assert DaysBeforeMonth(1900, 2) == 31 && DaysBeforeMonth(1900, 3) == 59;
  }
}
