/** `clean_period_data`: give a table of monthly periods a "YYYY-MM" string
    column and a numeric sort key, drop the rows whose key cannot be read,
    and sort the rest by key. */
module DataUtils {
  import opened Base
  import opened Strings
  import opened Calendar

  /** `str(pd.Period(ym, "M"))`, e.g. "2024-07". */
  function PeriodString(ym: YearMonth): string
    requires ym.year >= 0 && ym.month >= 0
  {
    ZeroPad(NatToString(ym.year), 4) + "-" + ZeroPad(NatToString(ym.month), 2)
  }

  /** `astype(str)` on a period column: a missing period prints as "NaT". */
  function PeriodCell(p: Option<YearMonth>): string {
    match p
    case Some(ym) => if ym.year >= 0 && ym.month >= 0 then PeriodString(ym) else "NaT"
    case None => "NaT"
  }

  /** The inner `extract_ym`: `None` (NaN, not a string) gives `None`; a string
      that splits on '-' into exactly two integers Y and M gives Y * 100 + M;
      anything else gives `None`. */
  function ExtractYm(v: Option<string>): (r: Option<int>)
    ensures r.Some? ==> v.Some? && CountChar(v.value, '-') == 1
  {
    match v
    case None => None
    case Some(s) =>
      var parts := Split(s, '-');
      SplitCount(s, '-');
      if |parts| == 2 then
        match (ParseInt(parts[0]), ParseInt(parts[1]))
        case (Some(y), Some(m)) => Some(y * 100 + m)
        case _ => None
      else None
  }

  /** The sort key of a month. */
  function SortKey(ym: YearMonth): int {
    ym.year * 100 + ym.month
  }

  /** The printed form of a month reads back as its sort key. */
  lemma ExtractYmOfPeriod(ym: YearMonth)
    requires ym.year >= 0 && ym.month >= 0
    ensures ExtractYm(Some(PeriodString(ym))) == Some(SortKey(ym))
  {
    PeriodParts(ym);
    PaddedReadsBack(ym.year, 4);
    PaddedReadsBack(ym.month, 2);
  }

  /** A printed month splits at its dash into year and month. */
  lemma PeriodParts(ym: YearMonth)
    requires ym.year >= 0 && ym.month >= 0
    ensures Split(PeriodString(ym), '-') == [ZeroPad(NatToString(ym.year), 4), ZeroPad(NatToString(ym.month), 2)]
  {
    var y := ZeroPad(NatToString(ym.year), 4);
    var m := ZeroPad(NatToString(ym.month), 2);
    DigitsHaveNoDash(y);
    DigitsHaveNoDash(m);
    SplitSeparated(y, '-', m);
    SplitWithoutSeparator(m, '-');
  }

  /** A zero-padded number reads back as the number. */
  lemma PaddedReadsBack(n: nat, width: nat)
    ensures ParseInt(ZeroPad(NatToString(n), width)) == Some(n)
  {
    NatToStringRoundTrip(n);
    ZeroPadValue(NatToString(n), width);
  }

  /** A missing period never gets a key. */
  lemma MissingPeriodHasNoKey()
    ensures ExtractYm(Some(PeriodCell(None))) == None
    ensures ExtractYm(None) == None
  {
    assert "NaT" == ['N'] + "aT";
    assert Split("NaT", '-') == ["NaT"] by {
      SplitWithoutSeparator("NaT", '-');
    }
  }

  /** For real months (1..12) the key order is chronological order, and equal
      keys mean equal months. */
  lemma SortKeyIsChronological(a: YearMonth, b: YearMonth)
    requires ValidMonth(a) && ValidMonth(b)
    ensures SortKey(a) < SortKey(b) <==> MonthBefore(a, b)
    ensures SortKey(a) == SortKey(b) <==> a == b
  {
    if a.year < b.year {
      assert SortKey(a) <= a.year * 100 + 12 < b.year * 100 <= SortKey(b);
    } else if a.year > b.year {
      assert SortKey(b) <= b.year * 100 + 12 < a.year * 100 <= SortKey(a);
    }
  }

  /** A row of the cleaned table with its two added columns. */
  datatype PeriodRow<T> = PeriodRow(row: T, periodStr: string, sortKey: int)

  predicate SortedByKey<T>(s: seq<PeriodRow<T>>) {
    forall i, j :: 0 <= i < j < |s| ==> s[i].sortKey <= s[j].sortKey
  }

  /** The number of keys that were read. */
  function PresentCount(keys: seq<Option<int>>): nat {
    if keys == [] then 0 else (if keys[0].Some? then 1 else 0) + PresentCount(keys[1..])
  }

  /** `df[df[sort_key].notna()]`: the rows whose key was read, in table order;
      one row per present key. */
  function KeptRows<T>(rows: seq<T>, strs: seq<string>, keys: seq<Option<int>>): (r: seq<PeriodRow<T>>)
    requires |rows| == |strs| == |keys|
    ensures |r| == PresentCount(keys) && |r| <= |rows|
  {
    if rows == [] then []
    else
      (match keys[0] case Some(k) => [PeriodRow(rows[0], strs[0], k)] case None => [])
      + KeptRows(rows[1..], strs[1..], keys[1..])
  }

  /** Every kept row comes from the table, with the key read from its string. */
  lemma {:induction false} KeptRowsFromTable<T>(rows: seq<T>, strs: seq<string>, keys: seq<Option<int>>, x: PeriodRow<T>)
    requires |rows| == |strs| == |keys|
    requires x in KeptRows(rows, strs, keys)
    ensures exists i :: 0 <= i < |rows| && keys[i].Some? && x == PeriodRow(rows[i], strs[i], keys[i].value)
  {
    var rest := KeptRows(rows[1..], strs[1..], keys[1..]);
    if keys[0].Some? && x == PeriodRow(rows[0], strs[0], keys[0].value) {
    } else {
      assert x in rest;
      KeptRowsFromTable(rows[1..], strs[1..], keys[1..], x);
      var i :| 0 <= i < |rows| - 1 && keys[1..][i].Some? && x == PeriodRow(rows[1..][i], strs[1..][i], keys[1..][i].value);
      assert rows[1..][i] == rows[i + 1] && strs[1..][i] == strs[i + 1] && keys[1..][i] == keys[i + 1];
    }
  }

  /** Every row whose key was read is kept, with that key. */
  lemma {:induction false} KeptRowsComplete<T>(rows: seq<T>, strs: seq<string>, keys: seq<Option<int>>, i: int)
    requires |rows| == |strs| == |keys|
    requires 0 <= i < |rows| && keys[i].Some?
    ensures PeriodRow(rows[i], strs[i], keys[i].value) in KeptRows(rows, strs, keys)
  {
    if i > 0 {
      KeptRowsComplete(rows[1..], strs[1..], keys[1..], i - 1);
    }
  }

  function InsertByKey<T>(x: PeriodRow<T>, s: seq<PeriodRow<T>>): (r: seq<PeriodRow<T>>)
    requires SortedByKey(s)
    ensures SortedByKey(r) && multiset(r) == multiset(s) + multiset{x}
  {
    if s == [] || x.sortKey <= s[0].sortKey then [x] + s
    else
      SortedTail(s);
      var tail := InsertByKey(x, s[1..]);
      InsertStep(x, s, tail);
      [s[0]] + tail
  }

  /** The rows after the first of a sorted table are sorted. */
  lemma SortedTail<T>(s: seq<PeriodRow<T>>)
    requires SortedByKey(s) && s != []
    ensures SortedByKey(s[1..])
  {
    forall i, j | 0 <= i < j < |s| - 1 ensures s[1..][i].sortKey <= s[1..][j].sortKey {
      assert s[1..][i] == s[i + 1] && s[1..][j] == s[j + 1];
    }
  }

  /** Putting the first row back in front of `x` inserted into the rest keeps
      the table sorted and adds exactly `x`. */
  lemma InsertStep<T>(x: PeriodRow<T>, s: seq<PeriodRow<T>>, tail: seq<PeriodRow<T>>)
    requires SortedByKey(s) && s != [] && s[0].sortKey < x.sortKey
    requires SortedByKey(tail) && multiset(tail) == multiset(s[1..]) + multiset{x}
    ensures SortedByKey([s[0]] + tail) && multiset([s[0]] + tail) == multiset(s) + multiset{x}
  {
    assert s == [s[0]] + s[1..];
    InsertedAbove(s[0].sortKey, x, s[1..], tail);
  }

  /** Every row of `tail`, a permutation of `rest` plus `x`, has a key of at
      least `b` when `x` and every row of `rest` do. */
  lemma InsertedAbove<T>(b: int, x: PeriodRow<T>, rest: seq<PeriodRow<T>>, tail: seq<PeriodRow<T>>)
    requires b <= x.sortKey && forall k :: 0 <= k < |rest| ==> b <= rest[k].sortKey
    requires multiset(tail) == multiset(rest) + multiset{x}
    ensures forall k :: 0 <= k < |tail| ==> b <= tail[k].sortKey
  {
    forall k | 0 <= k < |tail| ensures b <= tail[k].sortKey {
      assert tail[k] in multiset(tail);
      if tail[k] in multiset(rest) {
        var j :| 0 <= j < |rest| && rest[j] == tail[k];
      }
    }
  }

  /** `sort_values(sort_key)`: ascending by key. pandas' default sort is not
      stable, so only the order of keys and the multiset of rows are fixed. */
  function SortByKey<T>(s: seq<PeriodRow<T>>): (r: seq<PeriodRow<T>>)
    ensures SortedByKey(r) && multiset(r) == multiset(s)
  {
    if s == [] then []
    else
      assert s == [s[0]] + s[1..];
      InsertByKey(s[0], SortByKey(s[1..]))
  }

  /** A monthly table: its rows and its period column, plus the two columns
      `clean_period_data` adds to it (`None` until they are added). */
  class PeriodFrame<T> {
    var rows: seq<T>
    var period: seq<Option<YearMonth>>
    var periodStr: Option<seq<string>>
    var sortKey: Option<seq<Option<int>>>

    predicate Valid()
      reads this
    {
      |rows| == |period|
    }

    constructor (rows: seq<T>, period: seq<Option<YearMonth>>)
      requires |rows| == |period|
      ensures Valid()
      ensures this.rows == rows && this.period == period
      ensures periodStr.None? && sortKey.None?
    {
      this.rows := rows;
      this.period := period;
      periodStr := None;
      sortKey := None;
    }

    /** Adds the string and key columns to this table, then returns the rows
        with a key, sorted ascending by key. */
    method CleanPeriodData() returns (r: seq<PeriodRow<T>>)
      requires Valid()
      modifies this
      ensures Valid() && rows == old(rows) && period == old(period)
      ensures periodStr.Some? && |periodStr.value| == |period|
      ensures forall i :: 0 <= i < |period| ==> periodStr.value[i] == PeriodCell(period[i])
      ensures sortKey.Some? && |sortKey.value| == |period|
      ensures forall i :: 0 <= i < |period| ==> sortKey.value[i] == ExtractYm(Some(periodStr.value[i]))
      ensures SortedByKey(r)
      ensures multiset(r) == multiset(KeptRows(rows, periodStr.value, sortKey.value))
    {
      var strs := seq(|period|, i requires 0 <= i < |period| reads this => PeriodCell(period[i]));
      periodStr := Some(strs);
      var keys := seq(|strs|, i requires 0 <= i < |strs| => ExtractYm(Some(strs[i])));
      sortKey := Some(keys);
      r := SortByKey(KeptRows(rows, strs, keys));
    }
  }

  /** Every row of the cleaned table has a key read from a row of the input;
      so none has a missing key. */
  lemma CleanedRowsHaveKeys<T>(rows: seq<T>, strs: seq<string>, keys: seq<Option<int>>, r: seq<PeriodRow<T>>, k: int)
    requires |rows| == |strs| == |keys|
    requires multiset(r) == multiset(KeptRows(rows, strs, keys))
    requires 0 <= k < |r|
    ensures exists i :: 0 <= i < |rows| && keys[i] == Some(r[k].sortKey) && r[k] == PeriodRow(rows[i], strs[i], r[k].sortKey)
  {
    assert r[k] in multiset(r);
    assert r[k] in KeptRows(rows, strs, keys);
    KeptRowsFromTable(rows, strs, keys, r[k]);
  }

  /** Conversely, the cleaned table holds every input row whose key was read,
      and has exactly one row per present key. */
  lemma CleanedRowsComplete<T>(rows: seq<T>, strs: seq<string>, keys: seq<Option<int>>, r: seq<PeriodRow<T>>, i: int)
    requires |rows| == |strs| == |keys|
    requires multiset(r) == multiset(KeptRows(rows, strs, keys))
    requires 0 <= i < |rows| && keys[i].Some?
    ensures PeriodRow(rows[i], strs[i], keys[i].value) in r
    ensures |r| == PresentCount(keys)
  {
    KeptRowsComplete(rows, strs, keys, i);
    assert PeriodRow(rows[i], strs[i], keys[i].value) in multiset(r);
    assert |r| == |multiset(r)| == |multiset(KeptRows(rows, strs, keys))|;
  }
}
