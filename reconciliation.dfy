/** The monthly MRR reconciliation shared by both versions of
    `calculate_monthly_mrr_changes`: list the months of the analysis window,
    sum the activity deltas per (month, category), and chain each month's
    starting balance to the previous month's total. */
module Reconciliation {
  import opened Base
  import opened Calendar
  import opened Tables

  /** What the reconciliation reads of a processed activity: its month
      (`NaT` when it has no creation time), its category and its MRR impact
      in dollars. */
  datatype LedgerEntry = LedgerEntry(month: Option<YearMonth>, category: string, dollars: real)

  /** The ledger of a table of processed activities: one entry per row, in
      order, read by `entry`. */
  function LedgerOf<R>(records: seq<R>, entry: R -> LedgerEntry): (l: seq<LedgerEntry>)
    ensures |l| == |records|
    ensures forall i :: 0 <= i < |records| ==> l[i] == entry(records[i])
  {
    seq(|records|, i requires 0 <= i < |records| => entry(records[i]))
  }

  /** `start_date.replace(day=1)` moved to month `ym`: the first of that month
      at the start date's time of day. */
  function MonthStart(ym: YearMonth, time: int): DateTime {
    DateTime(Date(ym.year, ym.month, 1), time)
  }

  /** The month `i` months after the start date's month. */
  function MonthAfterStart(start: DateTime, i: int): YearMonth {
    FromIndex(Index(MonthOfDate(start.date)) + i)
  }

  /** `months` is the list the month loop builds: consecutive months from the
      start date's month, each beginning no later than `end`, stopping at the
      first that begins after it. */
  predicate IsMonthRange(months: seq<YearMonth>, start: DateTime, end: DateTime) {
    && (forall i :: 0 <= i < |months| ==> months[i] == MonthAfterStart(start, i))
    && (forall i :: 0 <= i < |months| ==> DateTimeLessEq(MonthStart(months[i], start.time), end))
    && !DateTimeLessEq(MonthStart(MonthAfterStart(start, |months|), start.time), end)
  }

  /** A month that begins no later than `end` is no later than `end`'s month. */
  lemma StartBeforeEndMonth(ym: YearMonth, time: int, end: DateTime)
    requires ValidMonth(ym) && 1 <= end.date.month <= 12
    requires DateTimeLessEq(MonthStart(ym, time), end)
    ensures Index(ym) <= Index(MonthOfDate(end.date))
  {
    MonthBeforeIndex(ym, MonthOfDate(end.date));
  }

  /** The month loop of `calculate_monthly_mrr_changes`: from the first of
      the start date's month, one month at a time (December rolls over to
      January of the next year) while the month's first is not after `end`. */
  method EnumerateMonths(start: DateTime, end: DateTime) returns (months: seq<YearMonth>)
    requires ValidDateTime(start) && ValidDateTime(end) && end.date.year < 9999
    ensures IsMonthRange(months, start, end)
  {
    months := [];
    var current := YearMonth(start.date.year, start.date.month);
    FromIndexOfIndex(current);
    while DateTimeLessEq(MonthStart(current, start.time), end)
      invariant ValidMonth(current) && current == MonthAfterStart(start, |months|)
      invariant forall i :: 0 <= i < |months| ==> months[i] == MonthAfterStart(start, i)
      invariant forall i :: 0 <= i < |months| ==> DateTimeLessEq(MonthStart(months[i], start.time), end)
      decreases Index(MonthOfDate(end.date)) - Index(current)
    {
      StartBeforeEndMonth(current, start.time, end);
      months := months + [current];
      if current.month == 12 {
        current := YearMonth(current.year + 1, 1);
      } else {
        current := YearMonth(current.year, current.month + 1);
      }
      FromIndexOfIndex(current);
    }
  }

  /** The number of months the loop lists: every month from the start date's up
      to the month before `end`'s, and `end`'s own month when its first (at the
      start date's time of day) is not after `end`. */
  lemma MonthRangeLength(months: seq<YearMonth>, start: DateTime, end: DateTime)
    requires ValidDateTime(start) && ValidDateTime(end)
    requires IsMonthRange(months, start, end)
    ensures var last := Index(MonthOfDate(end.date)) - Index(MonthOfDate(start.date));
      var endIncluded := DateTimeLessEq(MonthStart(MonthOfDate(end.date), start.time), end);
      |months| == if last < 0 then 0 else if endIncluded then last + 1 else last
  {
    var first := Index(MonthOfDate(start.date));
    var e := Index(MonthOfDate(end.date));
    var n := |months|;
    var next := MonthAfterStart(start, n);
    FromIndexOfIndex(MonthOfDate(end.date));
    if n > 0 {
      StartBeforeEndMonth(months[n - 1], start.time, end);
    }
    // The month after the list begins after `end`, so it is `end`'s month or later.
    MonthBeforeIndex(next, MonthOfDate(end.date));
    MonthBeforeIndex(MonthOfDate(end.date), next);
    if first + n == e + 1 && n > 0 {
      IndexInjective(months[n - 1], MonthOfDate(end.date));
    }
    if first + n == e {
      IndexInjective(next, MonthOfDate(end.date));
    }
  }

  /** Consecutive listed months are calendar neighbours. */
  lemma MonthRangeConsecutive(months: seq<YearMonth>, start: DateTime, end: DateTime, i: int)
    requires IsMonthRange(months, start, end) && 0 <= i < |months| - 1
    ensures months[i + 1] == Next(months[i])
  {
    assert months[i] == MonthAfterStart(start, i);
    IndexInjective(months[i + 1], Next(months[i]));
  }

  /** `groupby(["month", "category"]).sum()` looked up for one pair, 0 when the
      pair has no entry. */
  function CategorySum(ledger: seq<LedgerEntry>, m: YearMonth, c: string): real {
    if ledger == [] then 0.0
    else
      var here := if ledger[0].month == Some(m) && ledger[0].category == c then ledger[0].dollars else 0.0;
      here + CategorySum(ledger[1..], m, c)
  }

  lemma {:induction false} CategorySumAppend(ledger: seq<LedgerEntry>, e: LedgerEntry, m: YearMonth, c: string)
    ensures CategorySum(ledger + [e], m, c) ==
      CategorySum(ledger, m, c) + if e.month == Some(m) && e.category == c then e.dollars else 0.0
  {
    if ledger == [] {
      assert ledger + [e] == [e];
    } else {
      assert (ledger + [e])[1..] == ledger[1..] + [e];
      CategorySumAppend(ledger[1..], e, m, c);
    }
  }

  /** A pair without any entry sums to 0. */
  lemma {:induction false} CategorySumNoEntries(ledger: seq<LedgerEntry>, m: YearMonth, c: string)
    requires forall i :: 0 <= i < |ledger| ==> !(ledger[i].month == Some(m) && ledger[i].category == c)
    ensures CategorySum(ledger, m, c) == 0.0
  {
    if ledger != [] {
      CategorySumNoEntries(ledger[1..], m, c);
    }
  }

  /** `labels[0]` is the Starting row, `labels[1..7]` the six delta
      categories and `labels[7]` the Total row. */
  predicate ValidLabels(labels: seq<string>) {
    |labels| == 8
  }

  function DeltaSum(deltas: seq<real>): real {
    if deltas == [] then 0.0 else deltas[0] + DeltaSum(deltas[1..])
  }

  lemma {:induction false} DeltaSumZero(deltas: seq<real>)
    requires forall c :: 0 <= c < |deltas| ==> deltas[c] == 0.0
    ensures DeltaSum(deltas) == 0.0
  {
    if deltas != [] {
      DeltaSumZero(deltas[1..]);
    }
  }

  /** The eight figures of one month. */
  datatype MonthBalance = MonthBalance(month: YearMonth, starting: real, deltas: seq<real>, total: real)

  /** The six delta categories of month `m`. */
  function MonthDeltas(ledger: seq<LedgerEntry>, m: YearMonth, labels: seq<string>): (d: seq<real>)
    requires ValidLabels(labels)
    ensures |d| == 6 && forall c :: 0 <= c < 6 ==> d[c] == CategorySum(ledger, m, labels[c + 1])
  {
    seq(6, c requires 0 <= c < 6 => CategorySum(ledger, m, labels[c + 1]))
  }

  /** The table is reconciled: its months are `months`, each delta is the
      category's sum for its month, each total is the starting balance plus the
      deltas, the first month starts at `initial` and every later month starts
      at the previous month's total. */
  predicate Reconciled(table: seq<MonthBalance>, ledger: seq<LedgerEntry>, months: seq<YearMonth>, labels: seq<string>, initial: real)
    requires ValidLabels(labels)
  {
    && |table| == |months|
    && (forall i :: 0 <= i < |table| ==> table[i].month == months[i])
    && (forall i :: 0 <= i < |table| ==> table[i].deltas == MonthDeltas(ledger, months[i], labels))
    && (forall i :: 0 <= i < |table| ==> table[i].total == table[i].starting + DeltaSum(table[i].deltas))
    && (|table| > 0 ==> table[0].starting == initial)
    && (forall i :: 0 < i < |table| ==> table[i].starting == table[i - 1].total)
  }

  /** Walks the months in order, writing each month's deltas (the merged
      sums), its Starting row (the initial balance, then the previous month's
      Total) and its Total row. */
  method Reconcile(ledger: seq<LedgerEntry>, months: seq<YearMonth>, labels: seq<string>, initial: real)
    returns (table: array<MonthBalance>)
    requires ValidLabels(labels)
    ensures fresh(table)
    ensures Reconciled(table[..], ledger, months, labels, initial)
  {
    table := new MonthBalance[|months|];
    var i := 0;
    while i < |months|
      invariant 0 <= i <= |months| && table.Length == |months|
      invariant forall k :: 0 <= k < i ==> table[k].month == months[k]
      invariant forall k :: 0 <= k < i ==> table[k].deltas == MonthDeltas(ledger, months[k], labels)
      invariant forall k :: 0 <= k < i ==> table[k].total == table[k].starting + DeltaSum(table[k].deltas)
      invariant i > 0 ==> table[0].starting == initial
      invariant forall k :: 0 < k < i ==> table[k].starting == table[k - 1].total
    {
      var starting := if i == 0 then initial else table[i - 1].total;
      var deltas := MonthDeltas(ledger, months[i], labels);
      table[i] := MonthBalance(months[i], starting, deltas, starting + DeltaSum(deltas));
      i := i + 1;
    }
  }

  /** The sum of every month's deltas. */
  function TotalDelta(table: seq<MonthBalance>): real {
    if table == [] then 0.0 else TotalDelta(table[..|table| - 1]) + DeltaSum(table[|table| - 1].deltas)
  }

  /** Telescoping: the last month's total is the initial balance plus all the
      deltas of the window. */
  lemma {:induction false} Telescoping(table: seq<MonthBalance>, ledger: seq<LedgerEntry>, months: seq<YearMonth>, labels: seq<string>, initial: real)
    requires ValidLabels(labels)
    requires Reconciled(table, ledger, months, labels, initial) && table != []
    ensures table[|table| - 1].total == initial + TotalDelta(table)
  {
    var n := |table|;
    if n == 1 {
      assert table[..0] == [];
    } else {
      var init := table[..n - 1];
      assert Reconciled(init, ledger, months[..n - 1], labels, initial);
      Telescoping(init, ledger, months[..n - 1], labels, initial);
      assert init[n - 2] == table[n - 2];
    }
  }

  /** A month without any activity in the six categories ends where it started. */
  lemma QuietMonth(table: seq<MonthBalance>, ledger: seq<LedgerEntry>, months: seq<YearMonth>, labels: seq<string>, initial: real, i: int)
    requires ValidLabels(labels)
    requires Reconciled(table, ledger, months, labels, initial) && 0 <= i < |table|
    requires forall k :: 0 <= k < |ledger| ==> ledger[k].month != Some(months[i])
    ensures table[i].total == table[i].starting
  {
    var d := table[i].deltas;
    forall c | 0 <= c < 6 ensures d[c] == 0.0 {
      CategorySumNoEntries(ledger, months[i], labels[c + 1]);
    }
    DeltaSumZero(d);
  }

  /** One row of the result: a (month, category) pair with its amount and its
      `category_order`. */
  datatype MrrRow = MrrRow(month: YearMonth, category: string, dollars: real, order: int)

  /** The eight rows of one month, in category order 0..7. */
  function MonthRows(b: MonthBalance, labels: seq<string>): (r: seq<MrrRow>)
    requires ValidLabels(labels) && |b.deltas| == 6
    ensures |r| == 8
    ensures forall c :: 0 <= c < 8 ==> r[c].month == b.month && r[c].category == labels[c] && r[c].order == c
    ensures r[0].dollars == b.starting && r[7].dollars == b.total
    ensures forall c :: 1 <= c < 7 ==> r[c].dollars == b.deltas[c - 1]
  {
    [MrrRow(b.month, labels[0], b.starting, 0)]
    + seq(6, c requires 0 <= c < 6 => MrrRow(b.month, labels[c + 1], b.deltas[c], c + 1))
    + [MrrRow(b.month, labels[7], b.total, 7)]
  }

  predicate WellShaped(table: seq<MonthBalance>) {
    forall i :: 0 <= i < |table| ==> |table[i].deltas| == 6
  }

  /** The result table: each month's eight rows, months in order. */
  function Rows(table: seq<MonthBalance>, labels: seq<string>): (r: seq<MrrRow>)
    requires ValidLabels(labels) && WellShaped(table)
    ensures |r| == 8 * |table|
  {
    if table == [] then [] else Rows(table[..|table| - 1], labels) + MonthRows(table[|table| - 1], labels)
  }

  /** Row `8 * i + c` of the result is category `c` of month `i`. */
  lemma {:induction false} RowsAt(table: seq<MonthBalance>, labels: seq<string>, i: int, c: int)
    requires ValidLabels(labels) && WellShaped(table)
    requires 0 <= i < |table| && 0 <= c < 8
    ensures Rows(table, labels)[8 * i + c] == MonthRows(table[i], labels)[c]
  {
    var n := |table|;
    var init := table[..n - 1];
    assert WellShaped(init);
    if i < n - 1 {
      RowsAt(init, labels, i, c);
      assert init[i] == table[i];
    }
  }

  /** Raised when the window holds no month: the empty month table has no
      `month` column to merge, sort or read. */
  datatype ChangesError = EmptyMonthRange

  /** What one run produces from its month list and its reconciled table:
      the error when there is no month, else the flattened rows. */
  predicate Outcome(r: Result<seq<MrrRow>, ChangesError>, months: seq<YearMonth>, table: seq<MonthBalance>,
                    ledger: seq<LedgerEntry>, labels: seq<string>, initial: real)
    requires ValidLabels(labels)
  {
    if months == [] then r == Failure(EmptyMonthRange)
    else WellShaped(table) && Reconciled(table, ledger, months, labels, initial) && r == Success(Rows(table, labels))
  }

  /** `r` is the result for the window from `start` to `end`. */
  ghost predicate ChangesFor(r: Result<seq<MrrRow>, ChangesError>, ledger: seq<LedgerEntry>, start: DateTime, end: DateTime,
                       labels: seq<string>, initial: real)
    requires ValidLabels(labels)
  {
    exists months: seq<YearMonth>, table: seq<MonthBalance> ::
      IsMonthRange(months, start, end) && Outcome(r, months, table, ledger, labels, initial)
  }

  /** The whole computation for a ledger: an empty ledger (an empty
      activities table) gives an empty result; otherwise the months of the
      window are listed and reconciled and every month yields its eight rows. */
  method MonthlyChanges(ledger: seq<LedgerEntry>, start: DateTime, end: DateTime, labels: seq<string>, initial: real)
    returns (r: Result<seq<MrrRow>, ChangesError>)
    requires ValidLabels(labels)
    requires ValidDateTime(start) && ValidDateTime(end) && end.date.year < 9999
    ensures ledger == [] ==> r == Success([])
    ensures ledger != [] ==> ChangesFor(r, ledger, start, end, labels, initial)
  {
    if ledger == [] {
      return Success([]);
    }
    var months := EnumerateMonths(start, end);
    if months == [] {
      r := Failure(EmptyMonthRange);
      assert Outcome(r, months, [], ledger, labels, initial);
      return;
    }
    var table := Reconcile(ledger, months, labels, initial);
    var rows := table[..];
    assert WellShaped(rows);
    r := Success(Rows(rows, labels));
    assert Outcome(r, months, rows, ledger, labels, initial);
  }
}
