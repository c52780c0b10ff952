/**
 The proleptic Gregorian calendar: days counted from 1 January of year 1, and the dates they
 fall on, proved to be inverse numberings.
 */
module Calendar {

  predicate Leap(year: nat) {
    year % 4 == 0 && (year % 100 != 0 || year % 400 == 0)
  }

  function YearLength(year: nat): nat {
    if Leap(year) then 366 else 365
  }

  function MonthLength(year: nat, month: nat): (n: nat)
    requires 1 <= month <= 12
    ensures 28 <= n <= 31
  {
    if month == 2 then (if Leap(year) then 29 else 28)
    else if month == 4 || month == 6 || month == 9 || month == 11 then 30
    else 31
  }

  /** Days from 1 January of year 1 to 1 January of `year`. */
  function DaysBeforeYear(year: nat): nat
    requires year >= 1
  {
    if year == 1 then 0 else DaysBeforeYear(year - 1) + YearLength(year - 1)
  }

  /** Days from 1 January to the first of the month; month 13 is the year's end. */
  function DaysBeforeMonth(year: nat, month: nat): nat
    requires 1 <= month <= 13
  {
    if month == 1 then 0 else DaysBeforeMonth(year, month - 1) + MonthLength(year, month - 1)
  }

  lemma TwelveMonthsAreAYear(year: nat)
    ensures DaysBeforeMonth(year, 13) == YearLength(year)
  {
    var leap := if Leap(year) then 1 else 0;
    assert DaysBeforeMonth(year, 2) == 31;
    assert DaysBeforeMonth(year, 3) == 59 + leap;
    assert DaysBeforeMonth(year, 4) == 90 + leap;
    assert DaysBeforeMonth(year, 5) == 120 + leap;
    assert DaysBeforeMonth(year, 6) == 151 + leap;
    assert DaysBeforeMonth(year, 7) == 181 + leap;
    assert DaysBeforeMonth(year, 8) == 212 + leap;
    assert DaysBeforeMonth(year, 9) == 243 + leap;
    assert DaysBeforeMonth(year, 10) == 273 + leap;
    assert DaysBeforeMonth(year, 11) == 304 + leap;
    assert DaysBeforeMonth(year, 12) == 334 + leap;
  }

  datatype Date = Date(year: nat, month: nat, day: nat)

  predicate ValidDate(d: Date) {
    d.year >= 1 && 1 <= d.month <= 12 && 1 <= d.day <= MonthLength(d.year, d.month)
  }

  function DayNumber(d: Date): nat
    requires d.year >= 1 && 1 <= d.month <= 12 && d.day >= 1
  {
    DaysBeforeYear(d.year) + DaysBeforeMonth(d.year, d.month) + (d.day - 1)
  }

  function YearAt(n: nat, from: nat): (year: nat)
    requires from >= 1 && DaysBeforeYear(from) <= n
    ensures year >= from && DaysBeforeYear(year) <= n < DaysBeforeYear(year + 1)
    decreases n - DaysBeforeYear(from)
  {
    if n < DaysBeforeYear(from + 1) then from else YearAt(n, from + 1)
  }

  function MonthAt(year: nat, n: nat, from: nat): (month: nat)
    requires 1 <= from <= 12 && DaysBeforeMonth(year, from) <= n < DaysBeforeMonth(year, 13)
    ensures from <= month <= 12 && DaysBeforeMonth(year, month) <= n < DaysBeforeMonth(year, month + 1)
    decreases 12 - from
  {
    if n < DaysBeforeMonth(year, from + 1) then from else MonthAt(year, n, from + 1)
  }

  /** The date of day n. */
  function Civil(n: nat): (d: Date)
    ensures ValidDate(d) && DayNumber(d) == n
  {
    var year := YearAt(n, 1);
    TwelveMonthsAreAYear(year);
    var rest := n - DaysBeforeYear(year);
    var month := MonthAt(year, rest, 1);
    Date(year, month, rest - DaysBeforeMonth(year, month) + 1)
  }

  lemma {:induction false} YearsAscend(a: nat, b: nat)
    requires 1 <= a <= b
    ensures DaysBeforeYear(a) <= DaysBeforeYear(b)
    decreases b - a
  {
    if a < b {
      YearsAscend(a, b - 1);
    }
  }

  lemma {:induction false} MonthsAscend(year: nat, a: nat, b: nat)
    requires 1 <= a <= b <= 13
    ensures DaysBeforeMonth(year, a) <= DaysBeforeMonth(year, b)
    decreases b - a
  {
    if a < b {
      MonthsAscend(year, a, b - 1);
    }
  }

  /** A day that lies within a year falls in that year. */
  lemma YearIsUnique(n: nat, year: nat)
    requires year >= 1 && DaysBeforeYear(year) <= n < DaysBeforeYear(year + 1)
    ensures Civil(n).year == year
  {
    var y := YearAt(n, 1);
    if y < year {
      YearsAscend(y + 1, year);
    } else if year < y {
      YearsAscend(year + 1, y);
    }
  }

  /** Within its year, a day falls in one month only. */
  lemma MonthsAreDisjoint(year: nat, rest: nat, a: nat, b: nat)
    requires 1 <= a <= 12 && 1 <= b <= 12
    requires DaysBeforeMonth(year, a) <= rest < DaysBeforeMonth(year, a + 1)
    requires DaysBeforeMonth(year, b) <= rest < DaysBeforeMonth(year, b + 1)
    ensures a == b
  {
    if a < b {
      MonthsAscend(year, a + 1, b);
    } else if b < a {
      MonthsAscend(year, b + 1, a);
    }
  }

  /** A day that lies within a month falls in that month. */
  lemma MonthIsUnique(n: nat, year: nat, month: nat)
    requires year >= 1 && 1 <= month <= 12
    requires DaysBeforeYear(year) + DaysBeforeMonth(year, month) <= n
    requires n < DaysBeforeYear(year) + DaysBeforeMonth(year, month + 1)
    ensures Civil(n).year == year && Civil(n).month == month
  {
    TwelveMonthsAreAYear(year);
    MonthsAscend(year, month + 1, 13);
    YearIsUnique(n, year);
    var d := Civil(n);
    var rest := n - DaysBeforeYear(year);
    assert DaysBeforeMonth(year, d.month) <= rest < DaysBeforeMonth(year, d.month + 1);
    MonthsAreDisjoint(year, rest, month, d.month);
  }

  /** Numbering a date and reading the number back gives the date. */
  lemma CivilOfDayNumber(d: Date)
    requires ValidDate(d)
    ensures Civil(DayNumber(d)) == d
  {
    MonthIsUnique(DayNumber(d), d.year, d.month);
  }

  // ─── The Gregorian calendar, by other formulas ───

  lemma NextMultiple100(y: nat)
    requires y >= 1
    ensures y / 100 == (y - 1) / 100 + (if y % 100 == 0 then 1 else 0)
  {
  }

  lemma FourTimes(n: nat)
    ensures 4 * n % 4 == 0
  {
  }

  lemma HundredTimes(n: nat)
    ensures 100 * n % 100 == 0
  {
  }

  /** A year divisible by 100 is divisible by 4, and one divisible by 400 by 100. */
  lemma Multiples(y: nat)
    ensures y % 100 == 0 ==> y % 4 == 0
    ensures y % 400 == 0 ==> y % 100 == 0
  {
    if y % 100 == 0 {
      FourTimes(25 * (y / 100));
    }
    if y % 400 == 0 {
      HundredTimes(4 * (y / 400));
    }
  }

  /**
   Days before a year, from the number of years and of leap years before it: every fourth, but of the full centuries
   only every fourth.
   */
  lemma {:induction false} DaysBeforeYearClosed(year: nat)
    requires year >= 1
    ensures DaysBeforeYear(year) == 365 * (year - 1) + (year - 1) / 4 - (year - 1) / 100 + (year - 1) / 400
  {
    if year > 1 {
      var y := year - 1;
      DaysBeforeYearClosed(y);
      LeapCount(y);
    }
  }

  /** A leap year adds one to the count of leap years, and any other year nothing. */
  lemma LeapCount(y: nat)
    requires y >= 1
    ensures y / 4 - y / 100 + y / 400 ==
      (y - 1) / 4 - (y - 1) / 100 + (y - 1) / 400 + (if Leap(y) then 1 else 0)
  {
    NextMultiple100(y);
    Multiples(y);
  }

  /** Days before a month, by the five-month rule of the civil calendar. */
  lemma DaysBeforeMonthClosed(year: nat, month: nat)
    requires 1 <= month <= 12
    ensures DaysBeforeMonth(year, month) ==
      if month <= 2 then 31 * (month - 1)
      else (153 * (month - 3) + 2) / 5 + 59 + (if Leap(year) then 1 else 0)
  {
    var leap := if Leap(year) then 1 else 0;
    assert DaysBeforeMonth(year, 2) == 31;
    assert DaysBeforeMonth(year, 3) == 59 + leap;
    assert DaysBeforeMonth(year, 4) == 90 + leap;
    assert DaysBeforeMonth(year, 5) == 120 + leap;
    assert DaysBeforeMonth(year, 6) == 151 + leap;
    assert DaysBeforeMonth(year, 7) == 181 + leap;
    assert DaysBeforeMonth(year, 8) == 212 + leap;
    assert DaysBeforeMonth(year, 9) == 243 + leap;
    assert DaysBeforeMonth(year, 10) == 273 + leap;
    assert DaysBeforeMonth(year, 11) == 304 + leap;
  }

  /** The Unix epoch is day 719162, a Thursday as day 0 was a Monday. */
  lemma UnixEpoch()
    ensures DayNumber(Date(1970, 1, 1)) == 719_162 && 719_162 % 7 == 3
  {
    DaysBeforeYearClosed(1970);
    DaysBeforeMonthClosed(1970, 1);
  }
}
