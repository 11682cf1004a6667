/**
 * Gregorian dates and day numbers, as sections 15.9.1.3 to 15.9.1.5 and 15.9.1.12
 * of ECMA-262 edition 5.1 define them; day 0 is 1970-01-01.
 */
module CivilDate {

  datatype Civil = Civil(year: int, month: int, day: int)

  predicate IsLeap(y: int) {
    y % 4 == 0 && (y % 100 != 0 || y % 400 == 0)
  }

  function DaysInYear(y: int): int {
    if IsLeap(y) then 366 else 365
  }

  function DaysInMonth(y: int, m: int): int {
    if m == 2 then (if IsLeap(y) then 29 else 28)
    else if m in {4, 6, 9, 11} then 30
    else 31
  }

  predicate Valid(c: Civil) {
    1 <= c.month <= 12 && 1 <= c.day <= DaysInMonth(c.year, c.month)
  }

  function DayFromYear(y: int): int {
    365 * (y - 1970) + (y - 1969) / 4 - (y - 1901) / 100 + (y - 1601) / 400
  }

  /** The day of the year, counted from 0, on which a month starts. */
  function MonthStart(leap: bool, m: int): int {
    var k := if leap then 1 else 0;
    if m <= 1 then 0 else if m == 2 then 31
    else if m == 3 then 59 + k else if m == 4 then 90 + k
    else if m == 5 then 120 + k else if m == 6 then 151 + k
    else if m == 7 then 181 + k else if m == 8 then 212 + k
    else if m == 9 then 243 + k else if m == 10 then 273 + k
    else if m == 11 then 304 + k else if m == 12 then 334 + k
    else 365 + k
  }

  /** The month in which a day of the year falls. */
  function MonthOf(leap: bool, dayInYear: int): int {
    var k := if leap then 1 else 0;
    if dayInYear < 31 then 1 else if dayInYear < 59 + k then 2
    else if dayInYear < 90 + k then 3 else if dayInYear < 120 + k then 4
    else if dayInYear < 151 + k then 5 else if dayInYear < 181 + k then 6
    else if dayInYear < 212 + k then 7 else if dayInYear < 243 + k then 8
    else if dayInYear < 273 + k then 9 else if dayInYear < 304 + k then 10
    else if dayInYear < 334 + k then 11 else 12
  }

  function DayNumber(c: Civil): int {
    DayFromYear(c.year) + MonthStart(IsLeap(c.year), c.month) + c.day - 1
  }

  lemma YearLength(y: int)
    ensures DayFromYear(y + 1) == DayFromYear(y) + DaysInYear(y)
  {
    FourYears(y - 1969);
    Centuries(y - 1901);
    FourCenturies(y - 1601);
    if y % 400 == 0 {
      FourHundreds(y);
    }
    if y % 100 == 0 {
      Hundreds(y);
    }
  }

  lemma FourYears(x: int)
    ensures (x + 1) / 4 - x / 4 == if (x + 1969) % 4 == 0 then 1 else 0
  {
  }

  lemma Centuries(x: int)
    ensures (x + 1) / 100 - x / 100 == if (x + 1901) % 100 == 0 then 1 else 0
  {
  }

  lemma FourCenturies(x: int)
    ensures (x + 1) / 400 - x / 400 == if (x + 1601) % 400 == 0 then 1 else 0
  {
  }

  lemma FourHundreds(y: int)
    requires y % 400 == 0
    ensures y % 100 == 0
  {
    var k := y / 400;
    assert y == 100 * (4 * k);
  }

  lemma Hundreds(y: int)
    requires y % 100 == 0
    ensures y % 4 == 0
  {
    var k := y / 100;
    assert y == 4 * (25 * k);
  }

  /** The year of a day number: the last one that starts no later. */
  function YearOfDay(t: int): (y: int)
    ensures DayFromYear(y) <= t < DayFromYear(y + 1)
  {
    var guess := 1970 + (400 * t) / 146097;
    if DayFromYear(guess) > t then guess - 1
    else if DayFromYear(guess + 1) <= t then guess + 1
    else guess
  }

  /** The date of a day number; its own day number is the one it came from. */
  function CivilOfDay(t: int): (c: Civil)
    ensures Valid(c)
    ensures DayNumber(c) == t
  {
    var y := YearOfDay(t);
    YearLength(y);
    var dayInYear := t - DayFromYear(y);
    var m := MonthOf(IsLeap(y), dayInYear);
    Civil(y, m, dayInYear - MonthStart(IsLeap(y), m) + 1)
  }

  lemma {:induction false} YearsOrdered(y: int, z: int)
    requires y < z
    ensures DayFromYear(y + 1) <= DayFromYear(z)
    decreases z - y
  {
    if y + 1 < z {
      YearLength(y + 1);
      YearsOrdered(y + 1, z);
    }
  }

  lemma DayWithinYear(c: Civil)
    requires Valid(c)
    ensures DayFromYear(c.year) <= DayNumber(c) < DayFromYear(c.year + 1)
    ensures MonthOf(IsLeap(c.year), DayNumber(c) - DayFromYear(c.year)) == c.month
  {
    YearLength(c.year);
  }

  lemma SameYear(c: Civil, d: Civil)
    requires Valid(c) && Valid(d) && DayNumber(c) == DayNumber(d)
    ensures c.year == d.year
  {
    DayWithinYear(c);
    DayWithinYear(d);
    if c.year < d.year {
      YearsOrdered(c.year, d.year);
    } else if d.year < c.year {
      YearsOrdered(d.year, c.year);
    }
  }

  /** Two valid dates of one day are one date. */
  lemma SameDay(c: Civil, d: Civil)
    requires Valid(c) && Valid(d) && DayNumber(c) == DayNumber(d)
    ensures c == d
  {
    SameYear(c, d);
    DayWithinYear(c);
    DayWithinYear(d);
  }

  /** Every valid date is the date of its own day number. */
  lemma CivilRoundTrip(c: Civil)
    requires Valid(c)
    ensures CivilOfDay(DayNumber(c)) == c
  {
    SameDay(CivilOfDay(DayNumber(c)), c);
  }

  /** Chronological order on the year, month and day fields. */
  predicate Before(a: Civil, b: Civil) {
    a.year < b.year
    || (a.year == b.year && a.month < b.month)
    || (a.year == b.year && a.month == b.month && a.day < b.day)
  }

  /** Field order is day-number order. */
  lemma BeforeIsDayOrder(a: Civil, b: Civil)
    requires Valid(a) && Valid(b)
    ensures Before(a, b) <==> DayNumber(a) < DayNumber(b)
  {
    if Before(a, b) {
      BeforeIsEarlier(a, b);
    } else if Before(b, a) {
      BeforeIsEarlier(b, a);
    }
  }

  lemma BeforeIsEarlier(a: Civil, b: Civil)
    requires Valid(a) && Valid(b) && Before(a, b)
    ensures DayNumber(a) < DayNumber(b)
  {
    if a.year < b.year {
      DayWithinYear(a);
      DayWithinYear(b);
      YearsOrdered(a.year, b.year);
    } else if a.month < b.month {
      MonthEndsBefore(a, b.month);
    }
  }

  lemma MonthEndsBefore(c: Civil, m: int)
    requires Valid(c) && c.month < m <= 12
    ensures MonthStart(IsLeap(c.year), c.month) + c.day <= MonthStart(IsLeap(c.year), m)
  {
  }

  /** The next calendar day, by carrying into the month and the year. */
  function NextDay(c: Civil): Civil {
    if c.day < DaysInMonth(c.year, c.month) then Civil(c.year, c.month, c.day + 1)
    else if c.month < 12 then Civil(c.year, c.month + 1, 1)
    else Civil(c.year + 1, 1, 1)
  }

  /** Carrying is adding one to the day number. */
  lemma NextDayAddsOne(c: Civil)
    requires Valid(c)
    ensures Valid(NextDay(c))
    ensures DayNumber(NextDay(c)) == DayNumber(c) + 1
  {
    YearLength(c.year);
  }
}
