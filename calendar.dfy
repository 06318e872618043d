/**
 * The proleptic Gregorian calendar as the front end sees it through JavaScript `Date`
 * (year, month 1-12, day, weekday 0 = Sunday), the Japanese public-holiday predicate
 * `isJapaneseHoliday` with its helpers, and the cell grid of the mini calendar.
 * Dates are counted in days from 1970-01-01 by a closed formula, which fixes weekdays
 * and the day before and after any date.
 */
module Calendar {

  datatype CivilDate = CivilDate(year: int, month: int, day: int)

  predicate IsLeapYear(y: int) {
    y % 4 == 0 && (y % 100 != 0 || y % 400 == 0)
  }

  function DaysInMonth(y: int, m: int): (n: int)
    ensures 28 <= n <= 31
  {
    if m == 2 then (if IsLeapYear(y) then 29 else 28)
    else if m == 4 || m == 6 || m == 9 || m == 11 then 30
    else 31
  }

  predicate ValidDate(d: CivilDate) {
    1 <= d.month <= 12 && 1 <= d.day <= DaysInMonth(d.year, d.month)
  }

  /** The March-based year of a date: January and February count as the end of the previous year. */
  function MarchYear(d: CivilDate): int {
    if d.month <= 2 then d.year - 1 else d.year
  }

  /** Days in the March-based years before year `y`, counted from year 0. */
  function DaysBeforeMarchYear(y: int): int {
    365 * y + y / 4 - y / 100 + y / 400
  }

  /** Days from 1 March to the first of month `m` within a March-based year. */
  function DaysBeforeMonth(m: int): int {
    if m == 3 then 0 else if m == 4 then 31 else if m == 5 then 61 else if m == 6 then 92
    else if m == 7 then 122 else if m == 8 then 153 else if m == 9 then 184
    else if m == 10 then 214 else if m == 11 then 245 else if m == 12 then 275
    else if m == 1 then 306 else 337
  }

  /** Days since 1970-01-01 (negative before it). */
  function DayNumber(d: CivilDate): int {
    DaysBeforeMarchYear(MarchYear(d)) + DaysBeforeMonth(d.month) + d.day - 1 - 719468
  }

  /** `getDay()`: 0 for Sunday through 6 for Saturday; 1970-01-01 was a Thursday. */
  function Weekday(d: CivilDate): (w: int)
    ensures 0 <= w < 7
  {
    (DayNumber(d) + 4) % 7
  }

  /** `new Date(year, month - 1, day + 1)`: the following day. */
  function Next(d: CivilDate): CivilDate {
    if d.day < DaysInMonth(d.year, d.month) then CivilDate(d.year, d.month, d.day + 1)
    else if d.month < 12 then CivilDate(d.year, d.month + 1, 1)
    else CivilDate(d.year + 1, 1, 1)
  }

  /** `new Date(year, month - 1, day - 1)`: the preceding day. */
  function Prev(d: CivilDate): CivilDate {
    if d.day > 1 then CivilDate(d.year, d.month, d.day - 1)
    else if d.month > 1 then CivilDate(d.year, d.month - 1, DaysInMonth(d.year, d.month - 1))
    else CivilDate(d.year - 1, 12, 31)
  }

  /** A March-based year has 366 days exactly when the February that ends it is a leap February. */
  lemma MarchYearLength(y: int)
    ensures DaysBeforeMarchYear(y + 1) - DaysBeforeMarchYear(y) == if IsLeapYear(y + 1) then 366 else 365
  {
    assert (y + 1) / 4 - y / 4 == if (y + 1) % 4 == 0 then 1 else 0;
    assert (y + 1) / 100 - y / 100 == if (y + 1) % 100 == 0 then 1 else 0;
    assert (y + 1) / 400 - y / 400 == if (y + 1) % 400 == 0 then 1 else 0;
  }

  /** The following day is one day later, and stays a valid date. */
  lemma NextDayNumber(d: CivilDate)
    requires ValidDate(d)
    ensures ValidDate(Next(d))
    ensures DayNumber(Next(d)) == DayNumber(d) + 1
  {
    if d.day == DaysInMonth(d.year, d.month) {
      if d.month == 2 {
        MarchYearLength(d.year - 1);
      } else if d.month < 12 {
        MonthLengths(d.year, d.month);
      }
    }
  }

  /** Outside February, consecutive month starts are one month length apart within a March-based year. */
  lemma MonthLengths(y: int, m: int)
    requires 1 <= m < 12 && m != 2
    ensures DaysBeforeMonth(m + 1) == DaysBeforeMonth(m) + DaysInMonth(y, m)
  {
  }

  /** The day before the following day is the day itself, and the other way round. */
  lemma PrevNext(d: CivilDate)
    requires ValidDate(d)
    ensures Prev(Next(d)) == d
  {
  }

  lemma NextPrev(d: CivilDate)
    requires ValidDate(d)
    ensures ValidDate(Prev(d)) && Next(Prev(d)) == d
  {
  }

  lemma WeekdayNext(d: CivilDate)
    requires ValidDate(d)
    ensures Weekday(Next(d)) == (Weekday(d) + 1) % 7
  {
    NextDayNumber(d);
    WeekdayStep(DayNumber(d), DayNumber(Next(d)));
  }

  lemma WeekdayStep(n: int, n': int)
    requires n' == n + 1
    ensures (n' + 4) % 7 == ((n + 4) % 7 + 1) % 7
  {
  }

  /** Within a month, the day number grows by one per day. */
  lemma DayNumberInMonth(y: int, m: int, day: int)
    ensures DayNumber(CivilDate(y, m, day)) == DayNumber(CivilDate(y, m, 1)) + day - 1
  {
  }

  /** `isFixedHoliday(month, day)`: the ten fixed month-day pairs. */
  predicate IsFixedHoliday(month: int, day: int) {
    (month, day) in {(1, 1), (2, 11), (2, 23), (4, 29), (5, 3), (5, 4), (5, 5), (8, 11), (11, 3), (11, 23)}
  }

  /** `isHappyMondayHoliday`: the Monday that falls on day 8-14 of January and October or day 15-21 of July and September. */
  predicate IsHappyMondayHoliday(month: int, day: int, weekday: int) {
    (month == 1 && weekday == 1 && 8 <= day <= 14)
    || (month == 7 && weekday == 1 && 15 <= day <= 21)
    || (month == 9 && weekday == 1 && 15 <= day <= 21)
    || (month == 10 && weekday == 1 && 8 <= day <= 14)
  }

  /** `vernalEquinoxDay(year)`: floor(20.8431 + 0.242194 (year - 1980) - floor((year - 1980) / 4)). */
  function VernalEquinoxDay(year: int): int {
    (20.8431 + 0.242194 * (year - 1980) as real - ((year - 1980) / 4) as real).Floor
  }

  /** `autumnalEquinoxDay(year)`: the same formula from 23.2488. */
  function AutumnalEquinoxDay(year: int): int {
    (23.2488 + 0.242194 * (year - 1980) as real - ((year - 1980) / 4) as real).Floor
  }

  predicate IsEquinoxHoliday(month: int, day: int, year: int) {
    if month == 3 then day == VernalEquinoxDay(year)
    else if month == 9 then day == AutumnalEquinoxDay(year)
    else false
  }

  /** `isBaseJapaneseHoliday(date)`: a fixed, happy-Monday or equinox holiday. */
  predicate IsBaseHoliday(d: CivilDate) {
    IsFixedHoliday(d.month, d.day) || IsHappyMondayHoliday(d.month, d.day, Weekday(d))
    || IsEquinoxHoliday(d.month, d.day, d.year)
  }

  /**
   * `isJapaneseHoliday(date)`: Sundays; base holidays; from 1985 a day other than Saturday
   * between two base holidays; and a Monday after a base holiday (the only substitute
   * holiday the front end knows).
   */
  predicate IsJapaneseHoliday(d: CivilDate) {
    var weekday := Weekday(d);
    if weekday == 0 then true
    else if IsBaseHoliday(d) then true
    else if d.year >= 1985 && weekday != 6 && IsBaseHoliday(Prev(d)) && IsBaseHoliday(Next(d)) then true
    else if weekday == 1 then IsBaseHoliday(Prev(d))
    else false
  }

  /** The holidays are exactly the four kinds of day; nothing else is one. */
  lemma HolidayKinds(d: CivilDate)
    ensures IsJapaneseHoliday(d) <==>
      Weekday(d) == 0
      || IsBaseHoliday(d)
      || (Weekday(d) == 1 && IsBaseHoliday(Prev(d)))
      || (d.year >= 1985 && Weekday(d) != 6 && IsBaseHoliday(Prev(d)) && IsBaseHoliday(Next(d)))
  {
  }

  /** A base holiday on a Sunday gives the next day, a Monday, as a substitute holiday. */
  lemma SundayHolidayMovesToMonday(d: CivilDate)
    requires ValidDate(d) && IsBaseHoliday(d) && Weekday(d) == 0
    ensures Weekday(Next(d)) == 1 && IsJapaneseHoliday(Next(d))
  {
    WeekdayNext(d);
    PrevNext(d);
  }

  /** Each happy-Monday rule names exactly one day of its month, the Monday of its week. */
  lemma HappyMondayOncePerMonth(y: int, m: int, first: int)
    requires (m == 1 && first == 8) || (m == 7 && first == 15) || (m == 9 && first == 15) || (m == 10 && first == 8)
    ensures exists day :: first <= day < first + 7 && IsHappyMondayHoliday(m, day, Weekday(CivilDate(y, m, day)))
    ensures forall a, b ::
      (first <= a < first + 7 && first <= b < first + 7
       && IsHappyMondayHoliday(m, a, Weekday(CivilDate(y, m, a)))
       && IsHappyMondayHoliday(m, b, Weekday(CivilDate(y, m, b)))) ==> a == b
  {
    var t := DayNumber(CivilDate(y, m, 1)) + 3;
    DayNumberInMonth(y, m, first);
    var day := first + (8 - (t + first) % 7) % 7;
    MondayOfWeek(t, first);
    DayNumberInMonth(y, m, day);
    assert Weekday(CivilDate(y, m, day)) == 1;
    forall a, b | first <= a < first + 7 && first <= b < first + 7
      && Weekday(CivilDate(y, m, a)) == 1 && Weekday(CivilDate(y, m, b)) == 1
      ensures a == b
    {
      DayNumberInMonth(y, m, a);
      DayNumberInMonth(y, m, b);
      OneDayPerWeekday(t, a, b);
    }
  }

  lemma MondayOfWeek(t: int, first: int)
    ensures (t + first + (8 - (t + first) % 7) % 7) % 7 == 1
  {
  }

  /** Seven consecutive days have seven different weekdays. */
  lemma OneDayPerWeekday(t: int, a: int, b: int)
    requires -7 < b - a < 7 && (t + a) % 7 == (t + b) % 7
    ensures a == b
  {
  }

  /** For 1980-2099 the formulas put the vernal equinox on 19-21 March and the autumnal one on 22-23 September. */
  lemma EquinoxRange(y: int)
    requires 1980 <= y <= 2099
    ensures 19 <= VernalEquinoxDay(y) <= 21
    ensures 22 <= AutumnalEquinoxDay(y) <= 23
  {
    var k := y - 1980;
    var q := k / 4;
    var r := k % 4;
    assert k == 4 * q + r && 0 <= q <= 29 && 0 <= r <= 3;
    var drift := 0.242194 * k as real - q as real;
    assert drift == 0.242194 * r as real - 0.031224 * q as real;
    assert -0.91 < drift < 0.73;
  }

  /** 22 September 2015, a Tuesday between Respect for the Aged Day and the autumnal equinox, is a holiday. */
  lemma SandwichedDay2015()
    ensures Weekday(CivilDate(2015, 9, 22)) == 2
    ensures !IsBaseHoliday(CivilDate(2015, 9, 22))
    ensures IsJapaneseHoliday(CivilDate(2015, 9, 22))
  {
    assert DayNumber(CivilDate(2015, 9, 21)) == 16699;
    assert DayNumber(CivilDate(2015, 9, 22)) == 16700;
    assert DayNumber(CivilDate(2015, 9, 23)) == 16701;
    assert AutumnalEquinoxDay(2015) == 23;
  }

  /** 6 May 2020, the statutory substitute for Sunday 3 May, is not one: only a Monday can be a substitute. */
  lemma SubstituteOnlyOnMonday2020()
    ensures Weekday(CivilDate(2020, 5, 3)) == 0 && IsBaseHoliday(CivilDate(2020, 5, 3))
    ensures Weekday(CivilDate(2020, 5, 6)) == 3
    ensures !IsJapaneseHoliday(CivilDate(2020, 5, 6))
  {
    assert DayNumber(CivilDate(2020, 5, 3)) == 18385;
    assert DayNumber(CivilDate(2020, 5, 5)) == 18387;
    assert DayNumber(CivilDate(2020, 5, 6)) == 18388;
    assert DayNumber(CivilDate(2020, 5, 7)) == 18389;
  }

  /** A mini-calendar cell: blank, or the number of a day. */
  datatype Cell = Blank | Day(n: nat)

  /** The cells of a month that starts on `startWeekday` and has `lastDay` days, padded to whole weeks. */
  function MonthCells(startWeekday: nat, lastDay: nat): (cells: seq<Cell>)
    ensures |cells| % 7 == 0 && startWeekday + lastDay <= |cells| < startWeekday + lastDay + 7
  {
    var filled := startWeekday + lastDay;
    var size := WeekCeiling(filled);
    seq(size, i requires 0 <= i < size =>
      if startWeekday <= i < filled then Day(i - startWeekday + 1) else Blank)
  }

  /** The least multiple of 7 that is at least `n`. */
  function WeekCeiling(n: nat): (m: nat)
    ensures m % 7 == 0 && n <= m < n + 7
  {
    if n % 7 == 0 then n else n + (7 - n % 7)
  }

  /** `cells.slice(index, index + 7)` for every week. */
  function Weeks(cells: seq<Cell>): (rows: seq<seq<Cell>>)
    requires |cells| % 7 == 0
    ensures |rows| * 7 == |cells|
    ensures forall r :: 0 <= r < |rows| ==> rows[r] == cells[7 * r..7 * r + 7]
  {
    seq(|cells| / 7, r requires 0 <= r < |cells| / 7 => cells[7 * r..7 * r + 7])
  }

  /**
   * The cell grid of `renderMiniCalendar` (app.js): blanks up to the weekday of the 1st,
   * the numbered days, blanks to the end of the last week, then cut into weeks.
   */
  method CalendarGrid(year: int, month: int) returns (cells: seq<Cell>, rows: seq<seq<Cell>>)
    requires 1 <= month <= 12
    ensures cells == MonthCells(Weekday(CivilDate(year, month, 1)), DaysInMonth(year, month))
    ensures rows == Weeks(cells)
  {
    var startWeekday := Weekday(CivilDate(year, month, 1));
    var lastDay := DaysInMonth(year, month);
    ghost var spec := MonthCells(startWeekday, lastDay);
    cells := [];
    var index := 0;
    while index < startWeekday
      invariant 0 <= index <= startWeekday && cells == spec[..index]
    {
      cells := cells + [Blank];
      index := index + 1;
    }
    var day := 1;
    while day <= lastDay
      invariant 1 <= day <= lastDay + 1 && cells == spec[..startWeekday + day - 1]
    {
      cells := cells + [Day(day)];
      day := day + 1;
    }
    while |cells| % 7 != 0
      invariant startWeekday + lastDay <= |cells| <= |spec| && cells == spec[..|cells|]
      decreases |spec| - |cells|
    {
      cells := cells + [Blank];
    }
    assert cells == spec;
    rows := [];
    var start := 0;
    while start < |cells|
      invariant 0 <= start <= |cells| && start % 7 == 0 && |rows| * 7 == start
      invariant forall r :: 0 <= r < |rows| ==> rows[r] == cells[7 * r..7 * r + 7]
      decreases |cells| - start
    {
      rows := rows + [cells[start..start + 7]];
      start := start + 7;
    }
  }

  /** Day `d` of the month is drawn in the column of its weekday, and a month spans four to six weeks. */
  lemma GridMatchesWeekdays(year: int, month: int, d: int)
    requires 1 <= month <= 12 && 1 <= d <= DaysInMonth(year, month)
    ensures var cells := MonthCells(Weekday(CivilDate(year, month, 1)), DaysInMonth(year, month));
      var position := Weekday(CivilDate(year, month, 1)) + d - 1;
      cells[position] == Day(d) && position % 7 == Weekday(CivilDate(year, month, d))
      && 4 <= |cells| / 7 <= 6
  {
    var start := Weekday(CivilDate(year, month, 1));
    DayNumberInMonth(year, month, d);
    ColumnOfDay(DayNumber(CivilDate(year, month, 1)) + 4, d - 1);
    GridSize(start, DaysInMonth(year, month));
  }

  lemma ColumnOfDay(x: int, k: nat)
    ensures (x % 7 + k) % 7 == (x + k) % 7
  {
  }

  lemma GridSize(start: nat, lastDay: nat)
    requires start < 7 && 28 <= lastDay <= 31
    ensures 4 <= |MonthCells(start, lastDay)| / 7 <= 6
  {
  }
}
