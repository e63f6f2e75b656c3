/** The membership-growth figures: new, cancelled and renewed subscriptions
    per month since July 2024 (from the activity feed where it has them,
    else from the subscriptions table), and the total membership per month
    reconstructed backwards from today's active-member count. */
module MemberGrowth {
  import opened Base
  import opened Calendar
  import opened Tables
  import opened Members
  import opened Activities

  /** 2024-07-01 00:00:00 as Unix seconds: the first moment of the window. */
  const WindowStart: int := 1719792000

  // ---- Subscriptions-table side ----

  predicate CreatedInWindow(s: SubscriptionRow) {
    s.createdAt.Some? && s.createdAt.value >= WindowStart
  }

  /** `subs_df[subs_df["created_at"] >= start_date]`; a missing time never passes. */
  function RecentSubs(subs: seq<SubscriptionRow>): seq<SubscriptionRow> {
    Filter(subs, CreatedInWindow)
  }

  function SubKey(s: SubscriptionRow): string { s.subscriptionId }
  function CreatedMonth(s: SubscriptionRow): YearMonth { MonthOf(s.createdAt.GetOr(0)) }
  function ExpiresMonth(s: SubscriptionRow): YearMonth { MonthOf(s.expiresAt.GetOr(0)) }

  /** The rows of month `m`, as a mask. */
  function InMonth<T>(month: T -> YearMonth, m: YearMonth): T -> bool {
    x => month(x) == m
  }

  /** `groupby(month).size()`: for every month that occurs, how many rows fall in it. */
  function CountsByMonth<T>(xs: seq<T>, month: T -> YearMonth): (c: map<YearMonth, nat>)
    ensures c.Keys == KeySet(xs, month)
  {
    map m | m in KeySet(xs, month) :: |Filter(xs, InMonth(month, m))|
  }

  /** Counting deduplicated rows by month, where the key determines the
      month: every month of the input remains, and each counts the distinct
      keys of its rows. */
  lemma DedupCountsByMonth<T, K>(xs: seq<T>, key: T -> K, month: T -> YearMonth, m: YearMonth)
    requires forall i, j :: 0 <= i < |xs| && 0 <= j < |xs| && key(xs[i]) == key(xs[j]) ==> month(xs[i]) == month(xs[j])
    ensures CountsByMonth(DedupBy(xs, key), month).Keys == KeySet(xs, month)
    ensures m in KeySet(xs, month) ==>
      CountsByMonth(DedupBy(xs, key), month)[m] == DistinctCount(Filter(xs, InMonth(month, m)), key)
  {
    DedupKeepsDependentKeys(xs, key, month);
    DedupFilterCommute(xs, key, InMonth(month, m));
  }

  /** Every month of a count table occurs, so its count is at least 1 and at
      most the number of rows. */
  lemma CountsArePositive<T>(xs: seq<T>, month: T -> YearMonth, m: YearMonth)
    requires m in CountsByMonth(xs, month)
    ensures 1 <= CountsByMonth(xs, month)[m] <= |xs|
  {
    var i :| 0 <= i < |xs| && month(xs[i]) == m;
    FilterMembers(xs, InMonth(month, m));
    assert xs[i] in Filter(xs, InMonth(month, m));
  }

  /** The fallback "new" table: distinct subscriptions created in the window,
      by creation month. */
  function FallbackNew(subs: seq<SubscriptionRow>): (c: map<YearMonth, nat>)
    ensures forall m :: m in c ==> 1 <= c[m] <= |subs|
  {
    var unique := DedupBy(RecentSubs(subs), SubKey);
    DedupFacts(RecentSubs(subs), SubKey);
    KeySetSize(RecentSubs(subs), SubKey);
    assert forall m :: m in CountsByMonth(unique, CreatedMonth) ==> 1 <= CountsByMonth(unique, CreatedMonth)[m] <= |subs| by {
      forall m | m in CountsByMonth(unique, CreatedMonth) ensures 1 <= CountsByMonth(unique, CreatedMonth)[m] <= |unique| {
        CountsArePositive(unique, CreatedMonth, m);
      }
    }
    CountsByMonth(unique, CreatedMonth)
  }

  /** An expiry on or before today of an inactive subscription. */
  predicate Expired(s: SubscriptionRow, today: int) {
    s.expiresAt.Some? && s.expiresAt.value <= today && !s.active
  }

  /** The fallback "churned" table: distinct expired subscriptions of the
      window, by expiry month. */
  function FallbackChurned(subs: seq<SubscriptionRow>, today: int): map<YearMonth, nat> {
    CountsByMonth(DedupBy(Filter(RecentSubs(subs), s => Expired(s, today)), SubKey), ExpiresMonth)
  }

  /** When every row of a subscription carries the same creation time, the
      "new" table has a count for every month in which a subscription of the
      window was created, and that count is the number of distinct
      subscriptions created in it: none is counted twice, none is dropped. */
  lemma NewCountsDistinctSubscriptions(subs: seq<SubscriptionRow>, m: YearMonth)
    requires forall i, j :: 0 <= i < |subs| && 0 <= j < |subs| && subs[i].subscriptionId == subs[j].subscriptionId ==>
      subs[i].createdAt == subs[j].createdAt
    ensures FallbackNew(subs).Keys == KeySet(RecentSubs(subs), CreatedMonth)
    ensures m in FallbackNew(subs) ==>
      FallbackNew(subs)[m] == DistinctCount(Filter(RecentSubs(subs), InMonth(CreatedMonth, m)), SubKey)
  {
    var recent := RecentSubs(subs);
    FilterMembers(subs, CreatedInWindow);
    forall i, j | 0 <= i < |recent| && 0 <= j < |recent| && SubKey(recent[i]) == SubKey(recent[j])
      ensures CreatedMonth(recent[i]) == CreatedMonth(recent[j])
    {
      assert recent[i] in subs && recent[j] in subs;
    }
    DedupCountsByMonth(recent, SubKey, CreatedMonth, m);
  }

  /** Likewise, when every row of a subscription carries the same expiry,
      the "churned" table has a count for every month in which an expired
      subscription of the window expired, and that count is the number of
      distinct such subscriptions. */
  lemma ChurnedCountsDistinctSubscriptions(subs: seq<SubscriptionRow>, today: int, m: YearMonth)
    requires forall i, j :: 0 <= i < |subs| && 0 <= j < |subs| && subs[i].subscriptionId == subs[j].subscriptionId ==>
      subs[i].expiresAt == subs[j].expiresAt
    ensures var expired := Filter(RecentSubs(subs), s => Expired(s, today));
      && FallbackChurned(subs, today).Keys == KeySet(expired, ExpiresMonth)
      && (m in FallbackChurned(subs, today) ==>
           FallbackChurned(subs, today)[m] == DistinctCount(Filter(expired, InMonth(ExpiresMonth, m)), SubKey))
  {
    var recent := RecentSubs(subs);
    var expired := Filter(recent, s => Expired(s, today));
    FilterMembers(subs, CreatedInWindow);
    FilterMembers(recent, s => Expired(s, today));
    forall i, j | 0 <= i < |expired| && 0 <= j < |expired| && SubKey(expired[i]) == SubKey(expired[j])
      ensures ExpiresMonth(expired[i]) == ExpiresMonth(expired[j])
    {
      assert expired[i] in recent && expired[j] in recent;
      assert expired[i] in subs && expired[j] in subs;
    }
    DedupCountsByMonth(expired, SubKey, ExpiresMonth, m);
  }

  // ---- Activity side ----

  /** The three change types and the activity types each one counts. */
  datatype ChangeType = NewSubscriptions | Cancellations | Renewals

  function TypesOf(c: ChangeType): set<string> {
    match c
    case NewSubscriptions => {"new_order"}
    case Cancellations => {"subscription_deactivated"}
    case Renewals => {"renewal"}
  }

  predicate ActivityInWindow(r: ActivityRecord) {
    r.createdAt.Some? && r.createdAt.value >= WindowStart
  }

  function RecentActivities(acts: seq<ActivityRecord>): seq<ActivityRecord> {
    Filter(acts, ActivityInWindow)
  }

  function TypeActivities(recent: seq<ActivityRecord>, c: ChangeType): seq<ActivityRecord> {
    Filter(recent, (r: ActivityRecord) => r.activityType in TypesOf(c))
  }

  function ActivitySubKey(r: ActivityRecord): Option<string> { r.subscriptionId }
  function ActivityMonth(r: ActivityRecord): YearMonth { MonthOf(r.createdAt.GetOr(0)) }

  /** The activities a change type counts: the first of each subscription
      over the whole window (activities without a subscription share one key). */
  function Counted(recent: seq<ActivityRecord>, c: ChangeType): seq<ActivityRecord> {
    DedupBy(TypeActivities(recent, c), ActivitySubKey)
  }

  /** The `change_by_type` dictionary: a count table for every change type
      that has at least one activity in the window. */
  function ChangeByTypeOf(recent: seq<ActivityRecord>): map<ChangeType, map<YearMonth, nat>> {
    map c | c in {NewSubscriptions, Cancellations, Renewals} && TypeActivities(recent, c) != [] ::
      CountsByMonth(Counted(recent, c), ActivityMonth)
  }

  /** The loop filling `change_by_type`, one change type at a time. */
  method ChangeByType(recent: seq<ActivityRecord>) returns (byType: map<ChangeType, map<YearMonth, nat>>)
    ensures byType == ChangeByTypeOf(recent)
  {
    byType := map[];
    var types := [NewSubscriptions, Cancellations, Renewals];
    for i := 0 to 3
      invariant forall c :: c in byType <==> c in types[..i] && TypeActivities(recent, c) != []
      invariant forall c :: c in byType ==> byType[c] == CountsByMonth(Counted(recent, c), ActivityMonth)
    {
      var c := types[i];
      var ofType := TypeActivities(recent, c);
      if ofType != [] {
        byType := byType[c := CountsByMonth(DedupBy(ofType, ActivitySubKey), ActivityMonth)];
      }
    }
    assert types[..3] == types;
    forall c ensures c in types <==> c in {NewSubscriptions, Cancellations, Renewals} {
      match c
      case NewSubscriptions =>
      case Cancellations =>
      case Renewals =>
    }
  }

  /** Each subscription is counted at most once per change type over the whole
      window, and every subscription with an activity of the type is counted. */
  lemma ActivityCountsOncePerSubscription(recent: seq<ActivityRecord>, c: ChangeType)
    ensures DistinctKeys(Counted(recent, c), ActivitySubKey)
    ensures KeySet(Counted(recent, c), ActivitySubKey) == KeySet(TypeActivities(recent, c), ActivitySubKey)
  {
    DedupFacts(TypeActivities(recent, c), ActivitySubKey);
  }

  // ---- The three monthly tables ----

  datatype MonthlyCounts = MonthlyCounts(
    newSubs: map<YearMonth, nat>,
    churned: map<YearMonth, nat>,
    renewed: map<YearMonth, nat>)

  /** Which source each table comes from: the activity table of a change
      type when there is one, otherwise the subscriptions fallback (and no
      renewals at all). */
  function SelectCounts(subs: seq<SubscriptionRow>, acts: Option<seq<ActivityRecord>>, today: int): (r: MonthlyCounts)
    ensures acts.None? ==> r == MonthlyCounts(FallbackNew(subs), FallbackChurned(subs, today), map[])
    ensures r.renewed != map[] ==> acts.Some? && RecentActivities(acts.value) != []
    ensures r.newSubs != FallbackNew(subs) || r.churned != FallbackChurned(subs, today) ==>
      acts.Some? && RecentActivities(acts.value) != []
  {
    var byType := if acts.Some? && acts.value != [] then ChangeByTypeOf(RecentActivities(acts.value)) else map[];
    MonthlyCounts(
      if NewSubscriptions in byType then byType[NewSubscriptions] else FallbackNew(subs),
      if Cancellations in byType then byType[Cancellations] else FallbackChurned(subs, today),
      if Renewals in byType then byType[Renewals] else map[])
  }

  /** Without activities in the window the subscriptions table decides alone. */
  lemma NoRecentActivitiesFallsBack(subs: seq<SubscriptionRow>, acts: Option<seq<ActivityRecord>>, today: int)
    requires acts.None? || RecentActivities(acts.value) == []
    ensures SelectCounts(subs, acts, today) == MonthlyCounts(FallbackNew(subs), FallbackChurned(subs, today), map[])
  {
  }

  /** The months of the union of the three tables. */
  function AllMonths(c: MonthlyCounts): set<YearMonth> {
    c.newSubs.Keys + c.churned.Keys + c.renewed.Keys
  }

  function CountIn(t: map<YearMonth, nat>, m: YearMonth): nat {
    if m in t then t[m] else 0
  }

  /** A row of `monthly_changes`: the month's counts, missing as 0, and the net. */
  datatype MonthChange = MonthChange(month: YearMonth, newSubs: nat, churned: nat, renewed: nat, net: int)

  function MonthChangeOf(c: MonthlyCounts, m: YearMonth): (r: MonthChange)
    ensures r.net == r.newSubs - r.churned
    ensures m in c.newSubs ==> r.newSubs == c.newSubs[m]
    ensures m !in c.newSubs ==> r.newSubs == 0
  {
    var n := CountIn(c.newSubs, m);
    var ch := CountIn(c.churned, m);
    MonthChange(m, n, ch, CountIn(c.renewed, m), n - ch)
  }

  predicate StrictlyChronological(months: seq<YearMonth>) {
    forall i, j :: 0 <= i < j < |months| ==> Index(months[i]) < Index(months[j])
  }

  predicate IsEarliest(m: YearMonth, s: set<YearMonth>) {
    m in s && forall x :: x in s ==> Index(m) <= Index(x)
  }

  lemma MinimumExists(s: set<YearMonth>)
    requires s != {}
    ensures exists m :: IsEarliest(m, s)
  {
    var m :| m in s;
    if s != {m} {
      MinimumExists(s - {m});
      var r :| IsEarliest(r, s - {m});
      if Index(r) < Index(m) {
        assert IsEarliest(r, s);
      } else {
        assert IsEarliest(m, s);
      }
    } else {
      assert IsEarliest(m, s);
    }
  }

  /** `sorted(all_months)`: every month of the union once, oldest first. */
  method SortMonths(s: set<YearMonth>) returns (months: seq<YearMonth>)
    requires forall m :: m in s ==> ValidMonth(m)
    ensures StrictlyChronological(months)
    ensures forall m :: m in months <==> m in s
  {
    months := [];
    var rest := s;
    while rest != {}
      invariant rest <= s
      invariant forall m :: m in s <==> m in months || m in rest
      invariant forall m :: m in months ==> m !in rest
      invariant StrictlyChronological(months)
      invariant forall i, x :: 0 <= i < |months| && x in rest ==> Index(months[i]) < Index(x)
      decreases |rest|
    {
      MinimumExists(rest);
      var m :| IsEarliest(m, rest);
      forall i, x | 0 <= i < |months| && x in rest - {m} ensures Index(months[i]) < Index(x) {
      }
      months := months + [m];
      rest := rest - {m};
      forall x | x in rest ensures Index(m) < Index(x) {
        if Index(m) == Index(x) {
          IndexInjective(m, x);
        }
      }
    }
  }

  // ---- Total membership by month ----

  predicate ActiveSub(s: SubscriptionRow) { s.active }
  function MemberIdOf(s: SubscriptionRow): string { s.memberId }

  /** The current active-member count: distinct members among active rows. */
  function CurrentActiveCount(subs: seq<SubscriptionRow>): nat {
    |DedupBy(Filter(subs, ActiveSub), MemberIdOf)|
  }

  lemma CurrentActiveIsDistinctMembers(subs: seq<SubscriptionRow>)
    ensures CurrentActiveCount(subs) == DistinctCount(Filter(subs, ActiveSub), MemberIdOf)
    ensures CurrentActiveCount(subs) <= |subs|
  {
    DedupFacts(Filter(subs, ActiveSub), MemberIdOf);
    KeySetSize(Filter(subs, ActiveSub), MemberIdOf);
  }

  /** What the backward loop computes: the latest month keeps the current
      count, and every earlier month undoes its own new and churned counts
      from the month after it. */
  predicate AsWrittenBalance(totals: seq<int>, news: seq<int>, churns: seq<int>, current: int) {
    && |totals| == |news| == |churns|
    && (|totals| > 0 ==> totals[|totals| - 1] == current)
    && (forall k :: 0 <= k < |totals| - 1 ==> totals[k] == totals[k + 1] - news[k] + churns[k])
  }

  /** Month by month, the total is the previous total plus the month's new
      members minus its cancellations. */
  /** The latest total is `current`. */
  predicate EndsAt(totals: seq<int>, current: int) {
    |totals| > 0 ==> totals[|totals| - 1] == current
  }

  predicate ForwardBalance(totals: seq<int>, news: seq<int>, churns: seq<int>) {
    && |totals| == |news| == |churns|
    && (forall k :: 0 < k < |totals| ==> totals[k] == totals[k - 1] + news[k] - churns[k])
  }

  /** The reconstruction as the loop performs it, latest month first. */
  method BackwardTotalsAsWritten(news: seq<int>, churns: seq<int>, current: int) returns (totals: array<int>)
    requires |news| == |churns|
    ensures fresh(totals)
    ensures AsWrittenBalance(totals[..], news, churns, current)
  {
    var n := |news|;
    totals := new int[n];
    if n == 0 {
      return;
    }
    var running := current;
    totals[n - 1] := running;
    var k := n - 1;
    while k > 0
      invariant 0 <= k <= n - 1
      invariant totals[n - 1] == current && running == totals[k]
      invariant forall j :: k <= j < n - 1 ==> totals[j] == totals[j + 1] - news[j] + churns[j]
    {
      k := k - 1;
      running := running - news[k] + churns[k];
      totals[k] := running;
    }
  }

  /** The reconstruction with each month undoing the following month's
      changes, so that the month-by-month balance holds. */
  method BackwardTotals(news: seq<int>, churns: seq<int>, current: int) returns (totals: array<int>)
    requires |news| == |churns|
    ensures fresh(totals) && totals.Length == |news|
    ensures |news| > 0 ==> totals[|news| - 1] == current
    ensures ForwardBalance(totals[..], news, churns)
  {
    var n := |news|;
    totals := new int[n];
    if n == 0 {
      return;
    }
    var running := current;
    totals[n - 1] := running;
    var k := n - 1;
    while k > 0
      invariant 0 <= k <= n - 1
      invariant totals[n - 1] == current && running == totals[k]
      invariant forall j :: k < j < n ==> totals[j] == totals[j - 1] + news[j] - churns[j]
    {
      running := running - news[k] + churns[k];
      k := k - 1;
      totals[k] := running;
    }
  }

  /** Two months, no new members in the first and five in the second, ten
      active today: the loop as written gives the first month ten members,
      which breaks the balance of the second month (ten plus five new is not
      ten). The corrected reconstruction gives five. */
  lemma AsWrittenCounterexample(totals: seq<int>, corrected: seq<int>)
    requires AsWrittenBalance(totals, [0, 5], [0, 0], 10)
    requires |corrected| == 2 && corrected[1] == 10 && ForwardBalance(corrected, [0, 5], [0, 0])
    ensures totals == [10, 10] && !ForwardBalance(totals, [0, 5], [0, 0])
    ensures corrected == [5, 10]
  {
    assert totals[0] == totals[1] - 0 + 0;
  }

  /** With the corrected totals, the continuing members of a month are the
      previous month's total minus the month's cancellations. */
  lemma ContinuingCarriesOver(totals: seq<int>, news: seq<int>, churns: seq<int>, k: int)
    requires ForwardBalance(totals, news, churns) && 0 < k < |totals|
    ensures totals[k] - news[k] == totals[k - 1] - churns[k]
  {
  }

  /** The corrected totals are determined by today's count and the changes. */
  lemma ForwardBalanceUnique(a: seq<int>, b: seq<int>, news: seq<int>, churns: seq<int>)
    requires ForwardBalance(a, news, churns) && ForwardBalance(b, news, churns)
    requires |a| > 0 && a[|a| - 1] == b[|b| - 1]
    ensures a == b
  {
    var n := |a|;
    var k := n - 1;
    while k > 0
      invariant 0 <= k <= n - 1
      invariant forall j :: k <= j < n ==> a[j] == b[j]
    {
      k := k - 1;
      assert a[k + 1] == a[k] + news[k + 1] - churns[k + 1];
      assert b[k + 1] == b[k] + news[k + 1] - churns[k + 1];
    }
  }

  /** A row of the total-membership table. `renewals` is present only when
      some month had renewals. */
  datatype GrowthRow = GrowthRow(
    month: YearMonth,
    continuing: int,
    newMembers: int,
    cancelled: int,
    total: int,
    renewals: Option<int>)

  function GrowthRowOf(ch: MonthChange, total: int, hasRenewals: bool): (r: GrowthRow)
    ensures r.continuing == r.total - r.newMembers
    ensures r.cancelled == (if ch.churned > 0 then -(ch.churned as int) else 0) && r.cancelled <= 0
    ensures r.renewals.Some? <==> hasRenewals
  {
    GrowthRow(ch.month, total - ch.newSubs, ch.newSubs, if ch.churned > 0 then -(ch.churned as int) else 0, total,
      if hasRenewals then Some(ch.renewed) else None)
  }

  /** `monthly_changes["renewed"].sum() > 0` */
  predicate HasRenewals(changes: seq<MonthChange>) {
    exists i :: 0 <= i < |changes| && changes[i].renewed > 0
  }

  /** Whether the churn table is the frame built from bare column names
      (`pd.DataFrame(columns=["month", "churned"])`), whose month column has
      no period type: no cancellation activity was counted, and no
      subscription of the window has expired, so the fallback count table is
      empty too. */
  predicate UntypedChurn(subs: seq<SubscriptionRow>, acts: Option<seq<ActivityRecord>>, today: int) {
    var byType := if acts.Some? && acts.value != [] then ChangeByTypeOf(RecentActivities(acts.value)) else map[];
    Cancellations !in byType && FallbackChurned(subs, today) == map[]
  }

  /** A count table built from activities of a type has at least one month. */
  lemma CountedTableHasMonth(recent: seq<ActivityRecord>, c: ChangeType)
    requires TypeActivities(recent, c) != []
    ensures CountsByMonth(Counted(recent, c), ActivityMonth) != map[]
  {
    var ofType := TypeActivities(recent, c);
    DedupFacts(ofType, ActivitySubKey);
    assert ActivitySubKey(ofType[0]) in KeySet(ofType, ActivitySubKey);
    var counted := Counted(recent, c);
    assert ActivityMonth(counted[0]) in CountsByMonth(counted, ActivityMonth);
  }

  /** A month union with no month at all leaves the churn table untyped: a
      cancellation table from the activities always has a month. */
  lemma EmptyUnionHasUntypedChurn(subs: seq<SubscriptionRow>, acts: Option<seq<ActivityRecord>>, today: int)
    requires AllMonths(SelectCounts(subs, acts, today)) == {}
    ensures UntypedChurn(subs, acts, today)
  {
    if acts.Some? && acts.value != [] {
      var recent := RecentActivities(acts.value);
      if TypeActivities(recent, Cancellations) != [] {
        CountedTableHasMonth(recent, Cancellations);
        assert false;
      }
    }
  }

  /** The three tables, built as the source does: the activity loop when
      there are activities, then a fallback for each missing table. Also
      says whether the churn table is the untyped empty frame. */
  method ChangeCounts(subs: seq<SubscriptionRow>, acts: Option<seq<ActivityRecord>>, today: int)
    returns (counts: MonthlyCounts, untypedChurn: bool)
    ensures counts == SelectCounts(subs, acts, today)
    ensures untypedChurn == UntypedChurn(subs, acts, today)
  {
    var byType: map<ChangeType, map<YearMonth, nat>> := map[];
    if acts.Some? && acts.value != [] {
      byType := ChangeByType(RecentActivities(acts.value));
    }
    counts := MonthlyCounts(
      if NewSubscriptions in byType then byType[NewSubscriptions] else FallbackNew(subs),
      if Cancellations in byType then byType[Cancellations] else FallbackChurned(subs, today),
      if Renewals in byType then byType[Renewals] else map[]);
    untypedChurn := Cancellations !in byType && FallbackChurned(subs, today) == map[];
  }

  lemma CountKeysValid<T>(xs: seq<T>, month: T -> YearMonth)
    requires forall x :: ValidMonth(month(x))
    ensures forall m :: m in CountsByMonth(xs, month) ==> ValidMonth(m)
  {
  }

  /** Every month of the union is a real calendar month. */
  lemma SelectedMonthsValid(subs: seq<SubscriptionRow>, acts: Option<seq<ActivityRecord>>, today: int)
    ensures forall m :: m in AllMonths(SelectCounts(subs, acts, today)) ==> ValidMonth(m)
  {
    CountKeysValid(DedupBy(RecentSubs(subs), SubKey), CreatedMonth);
    CountKeysValid(DedupBy(Filter(RecentSubs(subs), s => Expired(s, today)), SubKey), ExpiresMonth);
    if acts.Some? && acts.value != [] {
      var recent := RecentActivities(acts.value);
      forall c ensures forall m :: m in CountsByMonth(Counted(recent, c), ActivityMonth) ==> ValidMonth(m) {
        CountKeysValid(Counted(recent, c), ActivityMonth);
      }
    }
  }

  function MonthsOf(changes: seq<MonthChange>): (ms: seq<YearMonth>)
    ensures |ms| == |changes| && forall i :: 0 <= i < |changes| ==> ms[i] == changes[i].month
  {
    seq(|changes|, i requires 0 <= i < |changes| => changes[i].month)
  }

  /** `changes` is the change table of `counts`: one row per month of the
      union, oldest first, each row that month's counts. */
  ghost predicate IsChangeTable(changes: seq<MonthChange>, counts: MonthlyCounts) {
    && StrictlyChronological(MonthsOf(changes))
    && (forall m :: m in AllMonths(counts) <==> m in MonthsOf(changes))
    && (forall i :: 0 <= i < |changes| ==> changes[i] == MonthChangeOf(counts, changes[i].month))
  }

  /** `monthly_changes` sorted by month: one row per month of the union,
      oldest first, with the counts filled in. Merging the churn table fails
      when the union is empty and the churn table is the untyped empty frame:
      both key columns are then empty, so pandas compares their dtypes. */
  method MonthlyChangeTable(counts: MonthlyCounts, untypedChurn: bool) returns (r: Result<seq<MonthChange>, FrameError>)
    requires forall m :: m in AllMonths(counts) ==> ValidMonth(m)
    ensures r.Failure? <==> AllMonths(counts) == {} && untypedChurn
    ensures r.Failure? ==> r.error == MergeKeyMismatch
    ensures r.Success? ==> IsChangeTable(r.value, counts)
  {
    if AllMonths(counts) == {} && untypedChurn {
      return Failure(MergeKeyMismatch);
    }
    var months := SortMonths(AllMonths(counts));
    var changes := seq(|months|, i requires 0 <= i < |months| => MonthChangeOf(counts, months[i]));
    assert MonthsOf(changes) == months;
    r := Success(changes);
  }

  function NewsOf(changes: seq<MonthChange>): (r: seq<int>)
    ensures |r| == |changes| && forall i :: 0 <= i < |changes| ==> r[i] == changes[i].newSubs as int
  {
    seq(|changes|, i requires 0 <= i < |changes| => changes[i].newSubs as int)
  }

  function ChurnsOf(changes: seq<MonthChange>): (r: seq<int>)
    ensures |r| == |changes| && forall i :: 0 <= i < |changes| ==> r[i] == changes[i].churned as int
  {
    seq(|changes|, i requires 0 <= i < |changes| => changes[i].churned as int)
  }

  function TotalsOf(rows: seq<GrowthRow>): (r: seq<int>)
    ensures |r| == |rows| && forall i :: 0 <= i < |rows| ==> r[i] == rows[i].total
  {
    seq(|rows|, i requires 0 <= i < |rows| => rows[i].total)
  }

  /** A column moved one month later: the first month gets 0, and every other
      month the value of the month before it. */
  function Delayed(xs: seq<int>): (r: seq<int>)
    ensures |r| == |xs|
    ensures |xs| > 0 ==> r[0] == 0
    ensures forall k :: 0 < k < |xs| ==> r[k] == xs[k - 1]
  {
    if xs == [] then [] else [0] + xs[..|xs| - 1]
  }

  /** What the loop as written reconstructs: exactly the balanced totals of
      the changes moved one month later, so each month's new and churned
      members are booked in the month after it. */
  lemma AsWrittenIsDelayedBalance(totals: seq<int>, news: seq<int>, churns: seq<int>, current: int)
    requires |totals| == |news| == |churns|
    ensures AsWrittenBalance(totals, news, churns, current) <==>
      (|totals| > 0 ==> totals[|totals| - 1] == current) && ForwardBalance(totals, Delayed(news), Delayed(churns))
  {
    var dn, dc := Delayed(news), Delayed(churns);
    if AsWrittenBalance(totals, news, churns, current) {
      forall k | 0 < k < |totals| ensures totals[k] == totals[k - 1] + dn[k] - dc[k] {
        assert totals[k - 1] == totals[k] - news[k - 1] + churns[k - 1];
      }
    }
    if ForwardBalance(totals, dn, dc) {
      forall k | 0 <= k < |totals| - 1 ensures totals[k] == totals[k + 1] - news[k] + churns[k] {
        assert totals[k + 1] == totals[k] + dn[k + 1] - dc[k + 1];
      }
    }
  }

  /** The membership table as the program computes it: totals reconstructed
      backwards from the current count by the loop as written, then one row
      per month. */
  method MembershipTable(changes: seq<MonthChange>, current: int) returns (rows: seq<GrowthRow>)
    ensures |rows| == |changes|
    ensures AsWrittenBalance(TotalsOf(rows), NewsOf(changes), ChurnsOf(changes), current)
    ensures forall i :: 0 <= i < |rows| ==> rows[i] == GrowthRowOf(changes[i], rows[i].total, HasRenewals(changes))
  {
    var totals := BackwardTotalsAsWritten(NewsOf(changes), ChurnsOf(changes), current);
    var hasRenewals := exists i :: 0 <= i < |changes| && changes[i].renewed > 0;
    rows := seq(|changes|, i requires 0 <= i < |changes| reads totals =>
      GrowthRowOf(changes[i], totals[i], hasRenewals));
    assert TotalsOf(rows) == totals[..];
  }

  /** The membership table with the corrected reconstruction: the latest total
      is the current count and the totals balance month by month. */
  method MembershipTableIntended(changes: seq<MonthChange>, current: int) returns (rows: seq<GrowthRow>)
    ensures |rows| == |changes|
    ensures EndsAt(TotalsOf(rows), current)
    ensures ForwardBalance(TotalsOf(rows), NewsOf(changes), ChurnsOf(changes))
    ensures forall i :: 0 <= i < |rows| ==> rows[i] == GrowthRowOf(changes[i], rows[i].total, HasRenewals(changes))
  {
    var totals := BackwardTotals(NewsOf(changes), ChurnsOf(changes), current);
    var hasRenewals := exists i :: 0 <= i < |changes| && changes[i].renewed > 0;
    rows := seq(|changes|, i requires 0 <= i < |changes| reads totals =>
      GrowthRowOf(changes[i], totals[i], hasRenewals));
    assert TotalsOf(rows) == totals[..];
  }

  /** The monthly change table of the growth view: one entry per month of the
      selected counts, oldest first. When no table has a month, the merge
      with the (then untyped) churn table fails. */
  method GrowthChangeTable(subs: seq<SubscriptionRow>, acts: Option<seq<ActivityRecord>>, today: int)
    returns (r: Result<seq<MonthChange>, FrameError>)
    ensures r.Failure? <==> AllMonths(SelectCounts(subs, acts, today)) == {}
    ensures r.Failure? ==> r.error == MergeKeyMismatch
    ensures r.Success? ==> IsChangeTable(r.value, SelectCounts(subs, acts, today))
  {
    var counts, untypedChurn := ChangeCounts(subs, acts, today);
    SelectedMonthsValid(subs, acts, today);
    if AllMonths(counts) == {} {
      EmptyUnionHasUntypedChurn(subs, acts, today);
    }
    r := MonthlyChangeTable(counts, untypedChurn);
  }

  /** What the growth view shows: the monthly change table and the total
      membership table. */
  datatype GrowthView = GrowthView(changes: seq<MonthChange>, rows: seq<GrowthRow>)

  /** Both parts of the growth view as the program computes them: the monthly
      change table and the total membership table, oldest month first, one
      entry per month, with the totals of the loop as written. An empty
      subscriptions table shows nothing; a non-empty one without any month
      to show fails in the merge. */
  method MemberGrowth(subs: seq<SubscriptionRow>, acts: Option<seq<ActivityRecord>>, today: int)
    returns (r: Result<GrowthView, FrameError>)
    ensures r.Failure? <==> subs != [] && AllMonths(SelectCounts(subs, acts, today)) == {}
    ensures r.Failure? ==> r.error == MergeKeyMismatch
    ensures subs == [] ==> r == Success(GrowthView([], []))
    ensures r.Success? && subs != [] ==> IsChangeTable(r.value.changes, SelectCounts(subs, acts, today))
    ensures r.Success? ==> |r.value.rows| == |r.value.changes|
    ensures r.Success? && subs != [] ==>
      AsWrittenBalance(TotalsOf(r.value.rows), NewsOf(r.value.changes), ChurnsOf(r.value.changes), CurrentActiveCount(subs))
    ensures r.Success? ==> forall i :: 0 <= i < |r.value.rows| ==>
      r.value.rows[i] == GrowthRowOf(r.value.changes[i], r.value.rows[i].total, HasRenewals(r.value.changes))
  {
    if subs == [] {
      return Success(GrowthView([], []));
    }
    var changes := GrowthChangeTable(subs, acts, today);
    if changes.Failure? {
      return Failure(changes.error);
    }
    var rows := MembershipTable(changes.value, CurrentActiveCount(subs));
    r := Success(GrowthView(changes.value, rows));
  }

  /** The growth view with the corrected totals: the last total is the current
      active-member count and the totals balance month by month. It fails
      exactly where the program does. */
  method MemberGrowthIntended(subs: seq<SubscriptionRow>, acts: Option<seq<ActivityRecord>>, today: int)
    returns (r: Result<GrowthView, FrameError>)
    ensures r.Failure? <==> subs != [] && AllMonths(SelectCounts(subs, acts, today)) == {}
    ensures r.Failure? ==> r.error == MergeKeyMismatch
    ensures subs == [] ==> r == Success(GrowthView([], []))
    ensures r.Success? && subs != [] ==> IsChangeTable(r.value.changes, SelectCounts(subs, acts, today))
    ensures r.Success? ==> |r.value.rows| == |r.value.changes|
    ensures r.Success? && subs != [] ==> EndsAt(TotalsOf(r.value.rows), CurrentActiveCount(subs))
    ensures r.Success? ==> ForwardBalance(TotalsOf(r.value.rows), NewsOf(r.value.changes), ChurnsOf(r.value.changes))
    ensures r.Success? ==> forall i :: 0 <= i < |r.value.rows| ==>
      r.value.rows[i] == GrowthRowOf(r.value.changes[i], r.value.rows[i].total, HasRenewals(r.value.changes))
  {
    if subs == [] {
      return Success(GrowthView([], []));
    }
    var changes := GrowthChangeTable(subs, acts, today);
    if changes.Failure? {
      return Failure(changes.error);
    }
    var rows := MembershipTableIntended(changes.value, CurrentActiveCount(subs));
    r := Success(GrowthView(changes.value, rows));
  }
}
