/** The proleptic Gregorian calendar as Python's `datetime` and pandas'
    `Period("M")` use it: calendar months, dates, date-times and the month in
    which a Unix timestamp (seconds, UTC) falls. */
module Calendar {

  /** A pandas monthly period. */
  datatype YearMonth = YearMonth(year: int, month: int)

  predicate ValidMonth(ym: YearMonth) {
    1 <= ym.month <= 12
  }

  /** The number of months since January of year 0: months in chronological
      order have increasing indices. */
  function Index(ym: YearMonth): int {
    ym.year * 12 + ym.month - 1
  }

  function FromIndex(k: int): (ym: YearMonth)
    ensures ValidMonth(ym) && Index(ym) == k
  {
    YearMonth(k / 12, k % 12 + 1)
  }

  lemma IndexInjective(a: YearMonth, b: YearMonth)
    requires ValidMonth(a) && ValidMonth(b) && Index(a) == Index(b)
    ensures a == b
  {
    MonthBeforeIndex(a, b);
    MonthBeforeIndex(b, a);
  }

  lemma FromIndexOfIndex(ym: YearMonth)
    requires ValidMonth(ym)
    ensures FromIndex(Index(ym)) == ym
  {
    IndexInjective(FromIndex(Index(ym)), ym);
  }

  /** The month after `ym`; December rolls over to January of the next year. */
  function Next(ym: YearMonth): (r: YearMonth)
    requires ValidMonth(ym)
    ensures ValidMonth(r) && Index(r) == Index(ym) + 1
  {
    if ym.month == 12 then YearMonth(ym.year + 1, 1) else YearMonth(ym.year, ym.month + 1)
  }

  /** `(a.year, a.month) < (b.year, b.month)`, which for valid months is
      comparison of indices. */
  predicate MonthBefore(a: YearMonth, b: YearMonth) {
    a.year < b.year || (a.year == b.year && a.month < b.month)
  }

  lemma MonthBeforeIndex(a: YearMonth, b: YearMonth)
    requires ValidMonth(a) && ValidMonth(b)
    ensures MonthBefore(a, b) <==> Index(a) < Index(b)
  {
    if a.year < b.year {
      assert Index(a) <= a.year * 12 + 11 < b.year * 12 <= Index(b);
    } else if a.year > b.year {
      assert Index(b) <= b.year * 12 + 11 < a.year * 12 <= Index(a);
    }
  }

  predicate IsLeapYear(y: int) {
    y % 4 == 0 && (y % 100 != 0 || y % 400 == 0)
  }

  function DaysInMonth(y: int, m: int): (n: int)
    requires 1 <= m <= 12
    ensures 28 <= n <= 31
  {
    if m == 2 then (if IsLeapYear(y) then 29 else 28)
    else if m == 4 || m == 6 || m == 9 || m == 11 then 30
    else 31
  }

  function DaysInYear(y: int): int {
    if IsLeapYear(y) then 366 else 365
  }

  /** The days of year `y` from the first of month `m` to the year's end. */
  function DaysFromMonth(y: int, m: int): int
    requires 1 <= m <= 13
    decreases 13 - m
  {
    if m == 13 then 0 else DaysInMonth(y, m) + DaysFromMonth(y, m + 1)
  }

  lemma DaysFromJanuary(y: int)
    ensures DaysFromMonth(y, 1) == DaysInYear(y)
  {
  }

  /** A `datetime.date`; `datetime` accepts years 1..9999 only. */
  datatype Date = Date(year: int, month: int, day: int)

  predicate ValidDate(d: Date) {
    1 <= d.year <= 9999 && 1 <= d.month <= 12 && 1 <= d.day <= DaysInMonth(d.year, d.month)
  }

  /** A naive `datetime.datetime`; `time` is the time of day in microseconds. */
  datatype DateTime = DateTime(date: Date, time: int)

  predicate ValidDateTime(t: DateTime) {
    ValidDate(t.date) && 0 <= t.time < 86_400_000_000
  }

  /** `a <= b` on naive date-times: lexicographic on (date, time of day). */
  predicate DateTimeLessEq(a: DateTime, b: DateTime) {
    || a.date.year < b.date.year
    || (a.date.year == b.date.year && a.date.month < b.date.month)
    || (a.date.year == b.date.year && a.date.month == b.date.month && a.date.day < b.date.day)
    || (a.date == b.date && a.time <= b.time)
  }

  function MonthOfDate(d: Date): YearMonth {
    YearMonth(d.year, d.month)
  }

  /** The date `doy` days (0-based) after the first of month `m` of year `y`. */
  function DateInYear(y: int, m: int, doy: int): (d: Date)
    requires 1 <= m <= 12 && 0 <= doy < DaysFromMonth(y, m)
    ensures d.year == y && 1 <= d.month <= 12 && 1 <= d.day <= DaysInMonth(y, d.month)
    decreases 12 - m
  {
    if doy < DaysInMonth(y, m) then Date(y, m, doy + 1)
    else DateInYear(y, m + 1, doy - DaysInMonth(y, m))
  }

  /** The date `days` (>= 0) days after the first of January of year `y`. */
  function DateAfter(y: int, days: int): (d: Date)
    requires days >= 0
    ensures 1 <= d.month <= 12 && 1 <= d.day <= DaysInMonth(d.year, d.month)
    decreases days
  {
    if days < DaysInYear(y) then
      DaysFromJanuary(y);
      DateInYear(y, 1, days)
    else DateAfter(y + 1, days - DaysInYear(y))
  }

  /** The date `days` (< 0) days after the first of January of year `y`. */
  function DateBefore(y: int, days: int): (d: Date)
    requires days < 0
    ensures 1 <= d.month <= 12 && 1 <= d.day <= DaysInMonth(d.year, d.month)
    decreases -days
  {
    var days' := days + DaysInYear(y - 1);
    if days' >= 0 then DateAfter(y - 1, days') else DateBefore(y - 1, days')
  }

  /** The UTC calendar date `days` days after 1970-01-01. */
  function DateOfDay(days: int): (d: Date)
    ensures 1 <= d.month <= 12 && 1 <= d.day <= DaysInMonth(d.year, d.month)
  {
    if days >= 0 then DateAfter(1970, days) else DateBefore(1970, days)
  }

  /** `pd.to_datetime(t, unit="s").to_period("M")`: the calendar month of a
      Unix timestamp, flooring to whole days as pandas does. */
  function MonthOf(t: int): (ym: YearMonth)
    ensures ValidMonth(ym)
  {
    MonthOfDate(DateOfDay(t / 86400))
  }

  const SecondsPerDay: int := 86400
}
