/** `get_date_n_months_ago`: the date n months before today as "%Y-%m-%d".
    Today is a parameter. */
module DateUtils {
  import opened Base
  import opened Strings
  import opened Calendar

  /** `datetime.replace` raises `ValueError` for a month outside 1..12, a day
      past the end of the month or a year outside 1..9999. */
  datatype DateError = InvalidDate(candidate: Date)

  /** The year, month and day `replace` is asked for, before it validates them. */
  function Requested(today: Date, n: int): Date {
    if today.month > n then Date(today.year, today.month - n, today.day)
    else Date(today.year - 1, today.month + 12 - n, today.day)
  }

  /** The date `n` months before `today`, or the error `replace` raises. */
  function DateNMonthsAgo(today: Date, n: int): (r: Result<Date, DateError>)
    requires ValidDate(today)
    ensures r.Success? ==> ValidDate(r.value) && r.value.day == today.day
    ensures r.Success? && today.month > n ==>
      r.value.year == today.year && r.value.month == today.month - n
    ensures r.Success? && today.month <= n ==>
      r.value.year == today.year - 1 && r.value.month == today.month + 12 - n
    ensures r.Failure? <==> !ValidDate(Requested(today, n))
  {
    var d := Requested(today, n);
    if ValidDate(d) then Success(d) else Failure(InvalidDate(d))
  }

  /** For 0 <= n <= 12 the requested month is a real month exactly `n` months
      before today's, so only the day (or year 1) can make `replace` fail. */
  lemma MonthsBack(today: Date, n: int)
    requires ValidDate(today) && 0 <= n <= 12
    ensures var d := Requested(today, n);
      && 1 <= d.month <= 12
      && Index(MonthOfDate(d)) == Index(MonthOfDate(today)) - n
  {
  }

  /** A day of month up to 28 exists in every month, so from year 2 on the
      call succeeds for every 0 <= n <= 12. */
  lemma SmallDayAlwaysSucceeds(today: Date, n: int)
    requires ValidDate(today) && 2 <= today.year && today.day <= 28 && 0 <= n <= 12
    ensures DateNMonthsAgo(today, n).Success?
  {
    MonthsBack(today, n);
  }

  /** n = 0 gives today. */
  lemma ZeroMonthsAgo(today: Date)
    requires ValidDate(today)
    ensures DateNMonthsAgo(today, 0) == Success(today)
  {
  }

  /** n = 12 gives the same month and day one year earlier, when that date exists. */
  lemma TwelveMonthsAgo(today: Date)
    requires ValidDate(today) && today.year >= 2
    requires !(today.month == 2 && today.day == 29)
    ensures DateNMonthsAgo(today, 12) == Success(Date(today.year - 1, today.month, today.day))
  {
  }

  /** The end of a 31-day month one month on lands on a day that does not
      exist; so does a leap day twelve months on. */
  lemma MissingDaysFail()
    ensures DateNMonthsAgo(Date(2025, 3, 31), 1).Failure?
    ensures DateNMonthsAgo(Date(2024, 2, 29), 12).Failure?
  {
  }

  /** `strftime("%Y-%m-%d")`: month and day zero-padded to two digits. */
  function FormatDate(d: Date): string
    requires d.year >= 0 && d.month >= 0 && d.day >= 0
  {
    NatToString(d.year) + "-" + ZeroPad(NatToString(d.month), 2) + "-" + ZeroPad(NatToString(d.day), 2)
  }

  /** Reading a "Y-M-D" string back into its three numbers. */
  function ParseDate(s: string): Option<Date> {
    var parts := Split(s, '-');
    if |parts| == 3 && parts[0] != [] && parts[1] != [] && parts[2] != []
      && AllDigits(parts[0]) && AllDigits(parts[1]) && AllDigits(parts[2])
    then Some(Date(DigitsValue(parts[0]), DigitsValue(parts[1]), DigitsValue(parts[2])))
    else None
  }

  /** The formatted date reads back as the same date, and month and day take
      at least two characters each. */
  lemma FormatDateRoundTrip(d: Date)
    requires d.year >= 0 && d.month >= 0 && d.day >= 0
    ensures ParseDate(FormatDate(d)) == Some(d)
    ensures var s := FormatDate(d); |s| >= |NatToString(d.year)| + 6
  {
    var y := NatToString(d.year);
    var m := ZeroPad(NatToString(d.month), 2);
    var dd := ZeroPad(NatToString(d.day), 2);
    DigitsHaveNoDash(y);
    DigitsHaveNoDash(m);
    DigitsHaveNoDash(dd);
    assert FormatDate(d) == y + ['-'] + (m + ['-'] + dd);
    SplitSeparated(y, '-', m + ['-'] + dd);
    SplitSeparated(m, '-', dd);
    SplitWithoutSeparator(dd, '-');
    NatToStringRoundTrip(d.year);
    NatToStringRoundTrip(d.month);
    NatToStringRoundTrip(d.day);
    ZeroPadValue(NatToString(d.month), 2);
    ZeroPadValue(NatToString(d.day), 2);
  }

  /** `get_date_n_months_ago(n)` with today's date injected. */
  function GetDateNMonthsAgo(today: Date, n: int): (r: Result<string, DateError>)
    requires ValidDate(today)
    ensures r.Success? <==> DateNMonthsAgo(today, n).Success?
    ensures r.Success? ==> ParseDate(r.value) == Some(DateNMonthsAgo(today, n).value)
  {
    match DateNMonthsAgo(today, n)
    case Success(d) =>
      FormatDateRoundTrip(d);
      Success(FormatDate(d))
    case Failure(e) => Failure(e)
  }
}
