/** The revenue panels: monthly revenue per plan, the bar kinds of the MRR
    waterfall, the last year's breakdown by category and the
    month-over-month growth of the MRR trend. */
module Revenue {
  import opened Base
  import opened Calendar
  import opened Tables
  import opened Members
  import opened Activities
  import opened Reconciliation

  // ----- Revenue by plan -----

  /** The active rows, one per subscription, so that a group subscription's
      seats count once. */
  function UniqueActiveSubscriptions(priced: seq<PricedRow>): seq<PricedRow> {
    DedupBy(Filter(priced, IsActive), SubscriptionKey)
  }

  /** One row of the plan table: the summed monthly value in cents, the
      number of distinct members and the revenue in dollars. */
  datatype PlanRevenue = PlanRevenue(monthlyValue: real, members: nat, monthlyRevenue: real)

  function PlanRevenueOf(unique: seq<PricedRow>, plan: string): PlanRevenue {
    var rows := Filter(unique, KeyIs(PlanKey, plan));
    var cents := SumOf(rows, Value);
    PlanRevenue(cents, DistinctCount(rows, MemberKey), cents / 100.0)
  }

  /** `groupby("plan")` over the unique active subscriptions: one entry per
      plan that occurs among them. */
  function PlanRevenueTable(priced: seq<PricedRow>): (t: map<string, PlanRevenue>)
    ensures t.Keys == KeySet(UniqueActiveSubscriptions(priced), PlanKey)
    ensures forall plan :: plan in t ==> t[plan].monthlyRevenue * 100.0 == t[plan].monthlyValue
  {
    var unique := UniqueActiveSubscriptions(priced);
    map plan | plan in KeySet(unique, PlanKey) :: PlanRevenueOf(unique, plan)
  }

  /** The plan table has no more entries than there are rows. */
  lemma PlanTableSize(priced: seq<PricedRow>)
    ensures |PlanRevenueTable(priced)| <= |priced|
  {
    var unique := UniqueActiveSubscriptions(priced);
    DedupFacts(Filter(priced, IsActive), SubscriptionKey);
    KeySetSize(Filter(priced, IsActive), SubscriptionKey);
    KeySetSize(unique, PlanKey);
  }

  /** Some active row is on `plan`. */
  predicate ActivePlan(priced: seq<PricedRow>, plan: string) {
    exists i :: 0 <= i < |priced| && priced[i].row.active && priced[i].row.plan == plan
  }

  /** All rows of a subscription are on the same plan. */
  predicate PlanFollowsSubscription(priced: seq<PricedRow>) {
    forall i, j :: 0 <= i < |priced| && 0 <= j < |priced| && priced[i].row.subscriptionId == priced[j].row.subscriptionId ==>
      priced[i].row.plan == priced[j].row.plan
  }

  /** Every plan of the table belongs to an active row. */
  lemma PlanTableKeysAreActive(priced: seq<PricedRow>, plan: string)
    requires plan in PlanRevenueTable(priced)
    ensures ActivePlan(priced, plan)
  {
    var active := Filter(priced, IsActive);
    var unique := UniqueActiveSubscriptions(priced);
    DedupFacts(active, SubscriptionKey);
    FilterMembers(priced, IsActive);
    var k :| 0 <= k < |unique| && PlanKey(unique[k]) == plan;
    assert unique[k] in active;
    var i :| 0 <= i < |priced| && priced[i] == unique[k];
  }

  lemma ActivePlanFollowsSubscription(priced: seq<PricedRow>, active: seq<PricedRow>)
    requires PlanFollowsSubscription(priced) && active == Filter(priced, IsActive)
    ensures forall a, b :: 0 <= a < |active| && 0 <= b < |active| && SubscriptionKey(active[a]) == SubscriptionKey(active[b]) ==>
        PlanKey(active[a]) == PlanKey(active[b])
  {
    FilterMembers(priced, IsActive);
    forall a, b | 0 <= a < |active| && 0 <= b < |active| && SubscriptionKey(active[a]) == SubscriptionKey(active[b])
      ensures PlanKey(active[a]) == PlanKey(active[b])
    {
      var a' :| 0 <= a' < |priced| && priced[a'] == active[a];
      var b' :| 0 <= b' < |priced| && priced[b'] == active[b];
    }
  }

  /** When all rows of a subscription share its plan, every plan of an active
      row is in the table. */
  lemma ActivePlansAreTableKeys(priced: seq<PricedRow>, plan: string)
    requires PlanFollowsSubscription(priced) && ActivePlan(priced, plan)
    ensures plan in PlanRevenueTable(priced)
  {
    var active := Filter(priced, IsActive);
    var i :| 0 <= i < |priced| && priced[i].row.active && priced[i].row.plan == plan;
    ActivePlanFollowsSubscription(priced, active);
    DedupKeepsDependentKeys(active, SubscriptionKey, PlanKey);
    FilterMembers(priced, IsActive);
    assert priced[i] in active;
    var k :| 0 <= k < |active| && active[k] == priced[i];
    assert PlanKey(active[k]) in KeySet(active, PlanKey);
  }

  /** The revenues of `plans`, added up. */
  function RevenueOver(table: map<string, PlanRevenue>, plans: seq<string>): real
    requires forall i :: 0 <= i < |plans| ==> plans[i] in table
  {
    if plans == [] then 0.0 else table[plans[0]].monthlyRevenue + RevenueOver(table, plans[1..])
  }

  lemma {:induction false} RevenueOverIsGroupSums(priced: seq<PricedRow>, plans: seq<string>)
    requires forall i :: 0 <= i < |plans| ==> plans[i] in PlanRevenueTable(priced)
    ensures RevenueOver(PlanRevenueTable(priced), plans) * 100.0 ==
      GroupSums(plans, UniqueActiveSubscriptions(priced), PlanKey, Value)
  {
    if plans != [] {
      RevenueOverIsGroupSums(priced, plans[1..]);
    }
  }

  /** The plans' revenues add up to the revenue of all unique active
      subscriptions, education ones included. */
  lemma PlanRevenuesAddUp(priced: seq<PricedRow>, plans: seq<string>)
    requires forall i, j :: 0 <= i < j < |plans| ==> plans[i] != plans[j]
    requires forall plan :: plan in plans <==> plan in PlanRevenueTable(priced)
    ensures RevenueOver(PlanRevenueTable(priced), plans) == SumOf(UniqueActiveSubscriptions(priced), Value) / 100.0
  {
    var unique := UniqueActiveSubscriptions(priced);
    RevenueOverIsGroupSums(priced, plans);
    forall i | 0 <= i < |unique| ensures PlanKey(unique[i]) in plans {
      assert PlanKey(unique[i]) in KeySet(unique, PlanKey);
    }
    GroupSumsAddUp(plans, unique, PlanKey, Value);
  }

  lemma UniqueRowsOfPlan(priced: seq<PricedRow>, plan: string)
    ensures var rows := Filter(UniqueActiveSubscriptions(priced), KeyIs(PlanKey, plan));
      DistinctKeys(rows, SubscriptionKey) && DistinctCount(rows, SubscriptionKey) == |rows|
  {
    var unique := UniqueActiveSubscriptions(priced);
    var rows := Filter(unique, KeyIs(PlanKey, plan));
    DedupFacts(Filter(priced, IsActive), SubscriptionKey);
    FilterKeepsDistinctKeys(unique, SubscriptionKey, KeyIs(PlanKey, plan));
    KeySetSize(rows, SubscriptionKey);
  }

  lemma PlanHasMember(priced: seq<PricedRow>, plan: string)
    requires plan in PlanRevenueTable(priced)
    ensures PlanRevenueTable(priced)[plan].members >= 1
  {
    var unique := UniqueActiveSubscriptions(priced);
    var rows := Filter(unique, KeyIs(PlanKey, plan));
    assert plan in KeySet(unique, PlanKey);
    assert PlanRevenueTable(priced)[plan] == PlanRevenueOf(unique, plan);
    var k :| 0 <= k < |unique| && PlanKey(unique[k]) == plan;
    FilterMembers(unique, KeyIs(PlanKey, plan));
    assert unique[k] in rows;
    var j :| 0 <= j < |rows| && rows[j] == unique[k];
    assert MemberKey(rows[j]) in KeySet(rows, MemberKey);
  }

  /** A plan of the table has at least one member and no more members than
      subscriptions: its rows are one per subscription. */
  lemma PlanMembersWithinSubscriptions(priced: seq<PricedRow>, plan: string)
    requires plan in PlanRevenueTable(priced)
    ensures var rows := Filter(UniqueActiveSubscriptions(priced), KeyIs(PlanKey, plan));
      && DistinctKeys(rows, SubscriptionKey)
      && 1 <= PlanRevenueTable(priced)[plan].members <= DistinctCount(rows, SubscriptionKey) == |rows|
  {
    var rows := Filter(UniqueActiveSubscriptions(priced), KeyIs(PlanKey, plan));
    UniqueRowsOfPlan(priced, plan);
    PlanHasMember(priced, plan);
    KeySetSize(rows, MemberKey);
  }

  /** The average revenue per member, 0 for a plan without members. */
  function AveragePerMember(revenue: real, members: nat): (r: real)
    ensures members == 0 ==> r == 0.0
    ensures members > 0 ==> r * members as real == revenue
  {
    if members > 0 then revenue / members as real else 0.0
  }

  /** Every plan of the table has members, so its average times its members
      is its revenue. */
  lemma PlanAverage(priced: seq<PricedRow>, plan: string)
    requires plan in PlanRevenueTable(priced)
    ensures var row := PlanRevenueTable(priced)[plan];
      AveragePerMember(row.monthlyRevenue, row.members) * row.members as real == row.monthlyRevenue
  {
    PlanMembersWithinSubscriptions(priced, plan);
  }

  // ----- The waterfall -----

  /** A waterfall bar either shows a balance or a change on top of the
      previous bar. */
  datatype Measure = TotalBar | RelativeBar

  /** The `measure` list of the waterfall: a balance bar exactly for the
      Starting and Total categories. */
  method Measures(categories: seq<string>) returns (measure: seq<Measure>)
    ensures |measure| == |categories|
    ensures forall i :: 0 <= i < |categories| ==>
      (measure[i] == TotalBar <==> categories[i] in {"Starting MRR", "Total MRR"})
  {
    measure := [];
    for i := 0 to |categories|
      invariant |measure| == i
      invariant forall j :: 0 <= j < i ==> (measure[j] == TotalBar <==> categories[j] in {"Starting MRR", "Total MRR"})
    {
      if categories[i] in {"Starting MRR", "Total MRR"} {
        measure := measure + [TotalBar];
      } else {
        measure := measure + [RelativeBar];
      }
    }
  }

  function RowDollars(r: MrrRow): real {
    r.dollars
  }

  lemma {:induction false} SumMatchesDeltas(rows: seq<MrrRow>, deltas: seq<real>)
    requires |rows| == |deltas|
    requires forall i :: 0 <= i < |rows| ==> rows[i].dollars == deltas[i]
    ensures SumOf(rows, RowDollars) == DeltaSum(deltas)
  {
    if rows != [] {
      SumMatchesDeltas(rows[1..], deltas[1..]);
    }
  }

  /** A reconciled month draws as a waterfall that closes: balance bars first
      and last, six change bars between them, and the last bar is the first
      plus the changes. */
  lemma MonthWaterfall(b: MonthBalance)
    requires |b.deltas| == 6 && b.total == b.starting + DeltaSum(b.deltas)
    ensures var rows := MonthRows(b, ActivityLabels);
      && (forall c :: 0 <= c < 8 ==> (rows[c].category in {"Starting MRR", "Total MRR"} <==> c == 0 || c == 7))
      && rows[7].dollars == rows[0].dollars + SumOf(rows[1..7], RowDollars)
  {
    var rows := MonthRows(b, ActivityLabels);
    SumMatchesDeltas(rows[1..7], b.deltas);
  }

  // ----- The breakdown by category -----

  const PositiveCategories: set<string> := {"New members", "Reactivations", "Upgrades"}
  const NegativeCategories: set<string> := {"Downgrades", "Cancellations", "Failed payments"}

  /** Created within the 365 days before `now`; a missing creation time never
      qualifies. */
  predicate WithinYear(r: ActivityRecord, now: int) {
    r.createdAt.Some? && r.createdAt.value >= now - 365 * SecondsPerDay
  }

  function LastYearMask(now: int): ActivityRecord -> bool {
    (r: ActivityRecord) => WithinYear(r, now)
  }

  function LastYear(records: seq<ActivityRecord>, now: int): seq<ActivityRecord> {
    Filter(records, LastYearMask(now))
  }

  /** The (month, category) groups of a ledger. */
  function Groups(ledger: seq<LedgerEntry>): set<(YearMonth, string)> {
    set i | 0 <= i < |ledger| && ledger[i].month.Some? :: (ledger[i].month.value, ledger[i].category)
  }

  function Abs(x: real): real {
    if x < 0.0 then -x else x
  }

  /** The bars of the stacked chart: the sums of the positive categories as
      they are, and those of the negative categories forced below zero. */
  datatype Breakdown = Breakdown(positive: map<(YearMonth, string), real>, negative: map<(YearMonth, string), real>)

  datatype BreakdownError = NoActivities | NoRecentActivities

  function BreakdownOf(records: seq<ActivityRecord>, now: int): (r: Result<Breakdown, BreakdownError>)
    ensures r == Failure(NoActivities) <==> records == []
    ensures r == Failure(NoRecentActivities) <==> records != [] && forall i :: 0 <= i < |records| ==> !WithinYear(records[i], now)
  {
    if records == [] then Failure(NoActivities)
    else
      var recent := LastYear(records, now);
      FilterMembers(records, LastYearMask(now));
      if recent == [] then
        assert forall i :: 0 <= i < |records| ==> !WithinYear(records[i], now) by {
          forall i | 0 <= i < |records| ensures !WithinYear(records[i], now) {
            assert records[i] in records;
          }
        }
        Failure(NoRecentActivities)
      else
        assert recent[0] in records;
        var ledger := Ledger(recent);
        var groups := Groups(ledger);
        Success(Breakdown(
          map g | g in groups && g.1 in PositiveCategories :: CategorySum(ledger, g.0, g.1),
          map g | g in groups && g.1 in NegativeCategories :: -Abs(CategorySum(ledger, g.0, g.1))))
  }

  /** A record of the last year with month `m` and category `c`. */
  predicate RecentIn(records: seq<ActivityRecord>, now: int, m: YearMonth, c: string) {
    exists i :: 0 <= i < |records| && WithinYear(records[i], now) && records[i].month == Some(m) && records[i].category == c
  }

  lemma GroupsOfLastYear(records: seq<ActivityRecord>, now: int, m: YearMonth, c: string)
    ensures (m, c) in Groups(Ledger(LastYear(records, now))) <==> RecentIn(records, now, m, c)
  {
    var recent := LastYear(records, now);
    var ledger := Ledger(recent);
    FilterMembers(records, LastYearMask(now));
    if (m, c) in Groups(ledger) {
      var k :| 0 <= k < |ledger| && ledger[k].month.Some? && (ledger[k].month.value, ledger[k].category) == (m, c);
      assert recent[k] in records;
      var i :| 0 <= i < |records| && records[i] == recent[k];
    }
    if RecentIn(records, now, m, c) {
      var i :| 0 <= i < |records| && WithinYear(records[i], now) && records[i].month == Some(m) && records[i].category == c;
      assert records[i] in recent;
      var k :| 0 <= k < |recent| && recent[k] == records[i];
      assert ledger[k].month == Some(m) && ledger[k].category == c;
    }
  }

  /** The chart has a positive bar for each positive category of a month in
      the last year and a negative bar for each negative one; every other
      category (renewals, education, other) is dropped, and every negative
      bar is at most 0. */
  lemma BreakdownBars(records: seq<ActivityRecord>, now: int, m: YearMonth, c: string)
    requires BreakdownOf(records, now).Success?
    ensures var b := BreakdownOf(records, now).value;
      && ((m, c) in b.positive <==> c in PositiveCategories && RecentIn(records, now, m, c))
      && ((m, c) in b.negative <==> c in NegativeCategories && RecentIn(records, now, m, c))
      && ((m, c) in b.positive ==> b.positive[(m, c)] == CategorySum(Ledger(LastYear(records, now)), m, c))
      && ((m, c) in b.negative ==> b.negative[(m, c)] <= 0.0)
      && ((m, c) in b.negative ==> Abs(b.negative[(m, c)]) == Abs(CategorySum(Ledger(LastYear(records, now)), m, c)))
  {
    GroupsOfLastYear(records, now, m, c);
  }

  lemma {:induction false} CategorySumNonPositive(ledger: seq<LedgerEntry>, m: YearMonth, c: string)
    requires forall i :: 0 <= i < |ledger| && ledger[i].month == Some(m) && ledger[i].category == c ==> ledger[i].dollars <= 0.0
    ensures CategorySum(ledger, m, c) <= 0.0
  {
    if ledger != [] {
      CategorySumNonPositive(ledger[1..], m, c);
    }
  }

  /** Forcing the sign changes nothing when the negative categories' impacts
      already are at most 0, as the classification makes them for
      non-negative plan values. */
  lemma SignForcingKeepsSums(records: seq<ActivityRecord>, now: int, m: YearMonth, c: string)
    requires BreakdownOf(records, now).Success?
    requires (m, c) in BreakdownOf(records, now).value.negative
    requires forall i :: 0 <= i < |records| && records[i].category in NegativeCategories ==> records[i].mrrImpactDollars <= 0.0
    ensures BreakdownOf(records, now).value.negative[(m, c)] == CategorySum(Ledger(LastYear(records, now)), m, c)
  {
    var recent := LastYear(records, now);
    var ledger := Ledger(recent);
    GroupsOfLastYear(records, now, m, c);
    FilterMembers(records, LastYearMask(now));
    forall k | 0 <= k < |ledger| && ledger[k].month == Some(m) && ledger[k].category == c
      ensures ledger[k].dollars <= 0.0
    {
      assert recent[k] in records;
      var i :| 0 <= i < |records| && records[i] == recent[k];
    }
    CategorySumNonPositive(ledger, m, c);
  }

  lemma {:induction false} CategorySumOfFilter(records: seq<ActivityRecord>, p: ActivityRecord -> bool, m: YearMonth, c: string)
    requires forall i :: 0 <= i < |records| && records[i].month == Some(m) ==> p(records[i])
    ensures CategorySum(Ledger(Filter(records, p)), m, c) == CategorySum(Ledger(records), m, c)
  {
    if records != [] {
      var rest := records[1..];
      CategorySumOfFilter(rest, p, m, c);
      assert Ledger(records)[1..] == Ledger(rest);
      var kept := Filter(records, p);
      if p(records[0]) {
        assert kept == [records[0]] + Filter(rest, p);
        assert Ledger(kept)[1..] == Ledger(Filter(rest, p));
      } else {
        assert kept == Filter(rest, p);
      }
    }
  }

  /** For a month that lies wholly in the last year, a bar before sign forcing
      is the month's change in the MRR reconciliation for that category. */
  lemma BreakdownMatchesReconciliation(records: seq<ActivityRecord>, now: int, m: YearMonth, c: string)
    requires forall i :: 0 <= i < |records| && records[i].month == Some(m) ==> WithinYear(records[i], now)
    ensures CategorySum(Ledger(LastYear(records, now)), m, c) == CategorySum(Ledger(records), m, c)
    ensures forall k :: 1 <= k < 7 && ActivityLabels[k] == c ==>
      MonthDeltas(Ledger(records), m, ActivityLabels)[k - 1] == CategorySum(Ledger(LastYear(records, now)), m, c)
  {
    CategorySumOfFilter(records, LastYearMask(now), m, c);
  }

  // ----- Month-over-month growth -----

  predicate IsTotalRow(r: MrrRow) {
    r.category == "Total MRR"
  }

  /** The Total MRR values of the reconciliation's rows, in order. */
  function TotalSeries(rows: seq<MrrRow>): seq<real> {
    if rows == [] then []
    else (if IsTotalRow(rows[0]) then [rows[0].dollars] else []) + TotalSeries(rows[1..])
  }

  datatype Growth = Growth(latest: real, previous: real, percent: real, amount: real, annual: real)

  /** The growth figures, when there are at least two months. */
  function GrowthOf(totals: seq<real>): (g: Option<Growth>)
    ensures g.Some? <==> |totals| > 1
    ensures g.Some? ==> g.value.latest == totals[|totals| - 1] && g.value.previous == totals[|totals| - 2]
    ensures g.Some? ==> g.value.amount == g.value.latest - g.value.previous && g.value.annual == 12.0 * g.value.latest
    ensures g.Some? ==> (g.value.previous <= 0.0 ==> g.value.percent == 0.0)
    ensures g.Some? && g.value.previous > 0.0 ==> g.value.percent * g.value.previous == g.value.amount * 100.0
  {
    if |totals| > 1 then
      var latest := totals[|totals| - 1];
      var previous := totals[|totals| - 2];
      Some(Growth(latest, previous, PercentChange(latest, previous), latest - previous, latest * 12.0))
    else None
  }

  lemma {:induction false} TotalSeriesOnlyLast(rows: seq<MrrRow>)
    requires rows != [] && IsTotalRow(rows[|rows| - 1])
    requires forall i :: 0 <= i < |rows| - 1 ==> !IsTotalRow(rows[i])
    ensures TotalSeries(rows) == [rows[|rows| - 1].dollars]
  {
    if |rows| > 1 {
      TotalSeriesOnlyLast(rows[1..]);
    }
  }

  lemma {:induction false} TotalSeriesAppend(a: seq<MrrRow>, b: seq<MrrRow>)
    ensures TotalSeries(a + b) == TotalSeries(a) + TotalSeries(b)
  {
    if a == [] {
      assert a + b == b;
    } else {
      assert (a + b)[0] == a[0];
      assert (a + b)[1..] == a[1..] + b;
      TotalSeriesAppend(a[1..], b);
    }
  }

  /** The reconciliation has one Total row per month, so its Total series is
      the months' totals. */
  lemma {:induction false} TotalSeriesOfRows(table: seq<MonthBalance>)
    requires WellShaped(table)
    ensures TotalSeries(Rows(table, ActivityLabels)) == seq(|table|, i requires 0 <= i < |table| => table[i].total)
  {
    if table != [] {
      var n := |table|;
      var init := table[..n - 1];
      assert WellShaped(init);
      TotalSeriesOfRows(init);
      var last := MonthRows(table[n - 1], ActivityLabels);
      TotalSeriesAppend(Rows(init, ActivityLabels), last);
      TotalSeriesOnlyLast(last);
    }
  }

  /** On a reconciled table the growth compares the last two months' totals,
      and the amount is exactly the last month's net change. */
  lemma {:induction false} ReconciledGrowth(table: seq<MonthBalance>, ledger: seq<LedgerEntry>, months: seq<YearMonth>, initial: real)
    requires WellShaped(table) && Reconciled(table, ledger, months, ActivityLabels, initial) && |table| > 1
    ensures var g := GrowthOf(TotalSeries(Rows(table, ActivityLabels)));
      && g.Some?
      && g.value.latest == table[|table| - 1].total
      && g.value.previous == table[|table| - 2].total
      && g.value.amount == DeltaSum(table[|table| - 1].deltas)
  {
    var n := |table|;
    TotalSeriesOfRows(table);
    var series := TotalSeries(Rows(table, ActivityLabels));
    assert series[n - 1] == table[n - 1].total && series[n - 2] == table[n - 2].total;
    assert table[n - 1].starting == table[n - 2].total;
    assert table[n - 1].total == table[n - 1].starting + DeltaSum(table[n - 1].deltas);
  }
}
