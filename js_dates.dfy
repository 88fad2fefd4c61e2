/**
 * The day arithmetic behind `new Date(year, month, date)` in JavaScript:
 * the abstract operations DayFromYear, InLeapYear and MakeDay of the
 * ECMAScript Language Specification, on exact integers. A day number counts
 * days from 1 January 1970; `month` is a 0-based month index, and
 * out-of-range months and dates roll over into the neighbouring months and
 * years, as MakeDay prescribes.
 */
module JsDates {

  predicate InLeapYear(y: int)
  {
    y % 4 == 0 && (y % 100 != 0 || y % 400 == 0)
  }

  function DaysInYear(y: int): nat
  {
    if InLeapYear(y) then 366 else 365
  }

  /** Length of the month with 0-based index `m`. */
  function DaysInMonth(m: nat, leap: bool): (n: nat)
    requires m < 12
    ensures 28 <= n <= 31
  {
    if m == 1 then (if leap then 29 else 28)
    else if m == 3 || m == 5 || m == 8 || m == 10 then 30
    else 31
  }

  /** Days in the year before the first day of month index `m`. */
  function MonthStart(m: nat, leap: bool): nat
    requires m <= 12
  {
    if m == 0 then 0 else MonthStart(m - 1, leap) + DaysInMonth(m - 1, leap)
  }

  /** The month table adds up to the length of the year. */
  lemma MonthStartOfYearEnd(y: int)
    ensures MonthStart(12, InLeapYear(y)) == DaysInYear(y)
  {
    var l := InLeapYear(y);
    var f := if l then 1 else 0;
    assert MonthStart(1, l) == 31;
    assert MonthStart(2, l) == 59 + f;
    assert MonthStart(3, l) == 90 + f;
    assert MonthStart(4, l) == 120 + f;
    assert MonthStart(5, l) == 151 + f;
    assert MonthStart(6, l) == 181 + f;
    assert MonthStart(7, l) == 212 + f;
    assert MonthStart(8, l) == 243 + f;
    assert MonthStart(9, l) == 273 + f;
    assert MonthStart(10, l) == 304 + f;
    assert MonthStart(11, l) == 334 + f;
  }

  /** Day number of 1 January of year `y` (DayFromYear; `/` is floor division for a positive divisor). */
  function DayFromYear(y: int): int
  {
    365 * (y - 1970) + (y - 1969) / 4 - (y - 1901) / 100 + (y - 1601) / 400
  }

  /** For a positive divisor, `a / n` grows by one exactly when `a + 1` is a multiple of `n`. */
  lemma FloorStep(a: int, n: int)
    requires n == 4 || n == 100 || n == 400
    ensures (a + 1) / n == a / n + (if (a + 1) % n == 0 then 1 else 0)
  {
    if n == 4 {
    } else if n == 100 {
    } else {
    }
  }

  /** Consecutive years are one year's length apart. */
  lemma DayFromYearStep(y: int)
    ensures DayFromYear(y + 1) == DayFromYear(y) + DaysInYear(y)
  {
    FloorStep(y - 1969, 4);
    FloorStep(y - 1901, 100);
    FloorStep(y - 1601, 400);
    assert (y - 1968) % 4 == 0 <==> y % 4 == 0;
    assert (y - 1900) % 100 == 0 <==> y % 100 == 0;
    assert (y - 1600) % 400 == 0 <==> y % 400 == 0;
  }

  /**
   * MakeDay(year, month, date): the day number of `date` (1-based, any
   * integer) in month index `month` (any integer) of `year`.
   */
  function MakeDay(year: int, month: int, date: int): int
  {
    var ym := year + month / 12;
    var mn := month % 12;
    DayFromYear(ym) + MonthStart(mn, InLeapYear(ym)) + date - 1
  }

  /** A month index within the year leaves the year as it is. */
  lemma MakeDayInYear(year: int, month: int, date: int)
    requires 0 <= month < 12
    ensures MakeDay(year, month, date) == DayFromYear(year) + MonthStart(month, InLeapYear(year)) + date - 1
  {
    assert month / 12 == 0 && month % 12 == month;
  }

  /** Counting past the end of a month lands on the first days of the next one. */
  lemma {:induction false} MonthRollover(year: int, month: int, k: int)
    ensures MakeDay(year, month, DaysInMonth(month % 12, InLeapYear(year + month / 12)) + k)
         == MakeDay(year, month + 1, k)
  {
    var ym := year + month / 12;
    if month % 12 == 11 {
      assert (month + 1) / 12 == month / 12 + 1 && (month + 1) % 12 == 0;
      DayFromYearStep(ym);
      MonthStartOfYearEnd(ym);
    } else {
      assert (month + 1) / 12 == month / 12 && (month + 1) % 12 == month % 12 + 1;
    }
  }
}
