/**
 * The birthday sort key: the `"day/month"` text is split at '/', both pieces
 * go through `parseInt(_, 10)`, and the pieces become `new Date(2020, month, day)`.
 */
module Birthdays {
  import opened Options
  import opened JsStrings
  import opened JsDates

  /** The year every birthday is placed in. */
  const ReferenceYear: int := 2020

  /** Position of the first '/' in `s`, if any. */
  function IndexOfSlash(s: string): (r: Option<nat>)
    ensures r.Some? ==> r.value < |s| && s[r.value] == '/' && '/' !in s[..r.value]
    ensures r.None? ==> '/' !in s
  {
    if |s| == 0 then None
    else if s[0] == '/' then Some(0)
    else match IndexOfSlash(s[1..])
      case None => None
      case Some(k) => assert s[..k + 1] == [s[0]] + s[1..][..k]; Some(k + 1)
  }

  /** The first piece of `s.split('/')`. */
  function UpToSlash(s: string): (p: string)
    ensures '/' !in p
  {
    match IndexOfSlash(s)
    case None => s
    case Some(k) => s[..k]
  }

  /**
   * `var [day, month] = s.split('/')`: the first two pieces; the month piece
   * is absent (`undefined`) when `s` holds no '/'.
   */
  function SplitDayMonth(s: string): (string, Option<string>)
  {
    match IndexOfSlash(s)
    case None => (s, None)
    case Some(k) => (s[..k], Some(UpToSlash(s[k + 1..])))
  }

  /** The parsed `(day, month)`; `None` when either `parseInt` gives `NaN` (`parseInt(undefined)` does). */
  function DayMonth(s: string): Option<(int, int)>
  {
    var (dayText, monthText) := SplitDayMonth(s);
    var day := ParseInt(dayText);
    var month := if monthText.Some? then ParseInt(monthText.value) else None;
    if day.Some? && month.Some? then Some((day.value, month.value)) else None
  }

  /**
   * The comparator's key AS WRITTEN, for parsed pieces: the day number of
   * `new Date(2020, month, day)`, which reads the 1-based month of the text as a
   * 0-based month index.
   */
  function AsWrittenKey(day: int, month: int): int
  {
    MakeDay(ReferenceYear, month, day)
  }

  /**
   * The corrected key, for parsed pieces: the day number of
   * `new Date(2020, month - 1, day)`, the calendar day the text names in 2020.
   */
  function CalendarKey(day: int, month: int): int
  {
    MakeDay(ReferenceYear, month - 1, day)
  }

  /** The as-written key of a birthday text; `None` stands for an invalid date (`getTime()` is `NaN`). */
  function AsWrittenDayNumber(s: string): (r: Option<int>)
    ensures r.Some? <==> DayMonth(s).Some?
  {
    var dm := DayMonth(s);
    if dm.None? then None else Some(AsWrittenKey(dm.value.0, dm.value.1))
  }

  /** The corrected key of a birthday text, which the sort model uses; `None` for an invalid date. */
  function DayNumber(s: string): (r: Option<int>)
    ensures r.Some? <==> DayMonth(s).Some?
  {
    var dm := DayMonth(s);
    if dm.None? then None else Some(CalendarKey(dm.value.0, dm.value.1))
  }

  /** The birthday text a villager record carries for day `d` of month `m` (1-based). */
  function Text(d: nat, m: nat): string
  {
    Decimal(d) + "/" + Decimal(m)
  }

  /** The first '/' of a birthday text follows the day's digits. */
  lemma IndexOfSlashText(d: nat, m: nat)
    ensures IndexOfSlash(Text(d, m)) == Some(|Decimal(d)|)
  {
    var s, dd := Text(d, m), Decimal(d);
    assert s[|dd|] == '/' && s[|dd|] in s;
    assert '/' !in dd;
    assert forall k | 0 <= k < |dd| :: s[k] == dd[k];
    forall k | |dd| < k <= |s|
      ensures '/' in s[..k]
    {
      assert s[..k][|dd|] == '/';
    }
  }

  /** Splitting a birthday text at '/' gives back the day and month digits. */
  lemma SplitText(d: nat, m: nat)
    ensures SplitDayMonth(Text(d, m)) == (Decimal(d), Some(Decimal(m)))
  {
    var s, dd, mm := Text(d, m), Decimal(d), Decimal(m);
    IndexOfSlashText(d, m);
    assert s[..|dd|] == dd;
    assert s[|dd| + 1..] == mm;
    assert '/' !in mm;
    assert UpToSlash(mm) == mm;
  }

  /** Splitting and parsing a birthday text gives back its day and month. */
  lemma DayMonthText(d: nat, m: nat)
    ensures DayMonth(Text(d, m)) == Some((d, m))
  {
    SplitText(d, m);
    ParseDecimal(d, []);
    ParseDecimal(m, []);
    assert Decimal(d) + [] == Decimal(d) && Decimal(m) + [] == Decimal(m);
  }

  /** A real calendar date of 2020: `m` in 1..12 and `d` within that month. */
  predicate IsCalendarDate(d: int, m: int)
  {
    1 <= m <= 12 && 1 <= d <= DaysInMonth(m - 1, InLeapYear(ReferenceYear))
  }

  /** The first day of a later month comes after every day of an earlier month. */
  lemma {:induction false} MonthStartAfter(i: nat, j: nat, leap: bool)
    requires i < j <= 12
    ensures MonthStart(j, leap) >= MonthStart(i, leap) + DaysInMonth(i, leap)
  {
    if j > i + 1 {
      MonthStartAfter(i, j - 1, leap);
    }
  }

  /** The 0-based position of day `d` of month `m` (1-based) in the leap year 2020. */
  function DayOfYear(d: int, m: int): int
    requires 1 <= m <= 12
  {
    MonthStart(m - 1, true) + d - 1
  }

  /** The corrected key of a date of the reference year is its first day's number plus the day of the year. */
  lemma CalendarDay(d: int, m: int)
    requires 1 <= m <= 12
    ensures CalendarKey(d, m) == DayFromYear(ReferenceYear) + DayOfYear(d, m)
  {
    MakeDayInYear(ReferenceYear, m - 1, d);
    assert InLeapYear(ReferenceYear);
  }

  /** Every day of an earlier month comes before every day of a later one. */
  lemma DayOfYearBefore(d1: int, m1: int, d2: int, m2: int)
    requires 1 <= m1 < m2 <= 12 && d1 <= DaysInMonth(m1 - 1, true) && 1 <= d2
    ensures DayOfYear(d1, m1) < DayOfYear(d2, m2)
  {
    MonthStartAfter(m1 - 1, m2 - 1, true);
  }

  /** Days of the year follow the calendar: by month, then by day. */
  lemma DayOfYearOrder(d1: int, m1: int, d2: int, m2: int)
    requires IsCalendarDate(d1, m1) && IsCalendarDate(d2, m2)
    ensures DayOfYear(d1, m1) < DayOfYear(d2, m2) <==> m1 < m2 || (m1 == m2 && d1 < d2)
    ensures DayOfYear(d1, m1) == DayOfYear(d2, m2) <==> m1 == m2 && d1 == d2
  {
    assert InLeapYear(ReferenceYear);
    if m1 < m2 {
      DayOfYearBefore(d1, m1, d2, m2);
    } else if m2 < m1 {
      DayOfYearBefore(d2, m2, d1, m1);
    }
  }

  /**
   * The corrected key orders calendar dates by month, then day, and only the
   * same date gets the same key.
   */
  lemma CalendarOrder(d1: int, m1: int, d2: int, m2: int)
    requires IsCalendarDate(d1, m1) && IsCalendarDate(d2, m2)
    ensures CalendarKey(d1, m1) < CalendarKey(d2, m2) <==> m1 < m2 || (m1 == m2 && d1 < d2)
    ensures CalendarKey(d1, m1) == CalendarKey(d2, m2) <==> m1 == m2 && d1 == d2
  {
    CalendarDay(d1, m1);
    CalendarDay(d2, m2);
    DayOfYearOrder(d1, m1, d2, m2);
  }

  /** The same order, read off the birthday texts of two calendar dates. */
  lemma CalendarOrderOfTexts(d1: nat, m1: nat, d2: nat, m2: nat)
    requires IsCalendarDate(d1, m1) && IsCalendarDate(d2, m2)
    ensures DayNumber(Text(d1, m1)) == Some(CalendarKey(d1, m1))
    ensures DayNumber(Text(d2, m2)) == Some(CalendarKey(d2, m2))
    ensures CalendarKey(d1, m1) < CalendarKey(d2, m2) <==> m1 < m2 || (m1 == m2 && d1 < d2)
  {
    DayMonthText(d1, m1);
    DayMonthText(d2, m2);
    CalendarOrder(d1, m1, d2, m2);
  }

  /** The pieces of a birthday text reach the as-written key unchanged. */
  lemma AsWrittenDayNumberOfText(d: nat, m: nat)
    ensures AsWrittenDayNumber(Text(d, m)) == Some(AsWrittenKey(d, m))
  {
    DayMonthText(d, m);
  }

  /** As written, "31/1" is read as day 31 of month index 1: 31 days past 31 January, on 2 March. */
  lemma AsWrittenJanuary31()
    ensures AsWrittenKey(31, 1) == DayFromYear(ReferenceYear) + 61
  {
    MakeDayInYear(ReferenceYear, 1, 31);
    assert MonthStart(1, InLeapYear(ReferenceYear)) == 31;
  }

  /** As written, "1/2" is read as the first day of month index 2: 1 March of the leap year 2020. */
  lemma AsWrittenFebruary1()
    ensures AsWrittenKey(1, 2) == DayFromYear(ReferenceYear) + 60
  {
    MakeDayInYear(ReferenceYear, 2, 1);
    assert InLeapYear(ReferenceYear);
    assert MonthStart(1, true) == 31;
    assert MonthStart(2, true) == 60;
  }

  /**
   * As written, 31 January gets a later key than 1 February: `new Date(2020, 1, 31)`
   * is 2 March and `new Date(2020, 2, 1)` is 1 March, so the birthday sort puts
   * a villager born on 1 February before one born on 31 January. The corrected
   * key orders them by the calendar.
   */
  lemma AsWrittenMisorders()
    ensures IsCalendarDate(31, 1) && IsCalendarDate(1, 2)
    ensures AsWrittenDayNumber(Text(31, 1)) == Some(AsWrittenKey(31, 1))
    ensures AsWrittenDayNumber(Text(1, 2)) == Some(AsWrittenKey(1, 2))
    ensures AsWrittenKey(31, 1) > AsWrittenKey(1, 2)
    ensures DayNumber(Text(31, 1)) == Some(CalendarKey(31, 1))
    ensures DayNumber(Text(1, 2)) == Some(CalendarKey(1, 2))
    ensures CalendarKey(31, 1) < CalendarKey(1, 2)
  {
    assert InLeapYear(ReferenceYear);
    AsWrittenDayNumberOfText(31, 1);
    AsWrittenDayNumberOfText(1, 2);
    AsWrittenJanuary31();
    AsWrittenFebruary1();
    CalendarOrderOfTexts(31, 1, 1, 2);
  }
}
