# Memberful dashboard: the derivation engine

This project models the Maine Ad + Design membership dashboard's derivation
engine in Dafny. The engine takes raw Memberful member and activity records
and turns them into these figures:

- the members table and the subscriptions table;
- monthly recurring revenue (MRR) with paying, active and education counts;
- the all-members, new-members and recent-orders views;
- the plan-revenue table and the thirty-day comparison of the metrics panel;
- the activity classification (a category and a signed MRR impact per activity);
- the month-by-month MRR reconciliation and the revenue breakdown;
- the membership-growth tables, including the total membership reconstructed backwards from today's count;
- the labels, emoji, plan details and ordering of the activity feed.

Conventions:

- Money is exact: `real` cents, and dollars are cents / 100.
- Times are Unix seconds (`int`).
- "Now" and "today" are parameters.
- A missing field or a pandas `NaT`/`NaN` is an `Option`.
- Pandas operations are written out once in `Tables` and used everywhere:
  - a boolean mask is `Filter`;
  - `drop_duplicates` is `DedupBy`, which keeps the first row of each key;
  - `nunique` is `DistinctCount`;
  - `groupby().sum()` is `SumOf` over a `Filter`.
- An exception the source would raise is the `Failure` of a `Result`.

Modules:

- `Base`: `Option` and `Result`.
- `Strings`: `lower`, `endswith`, `in`, `split`, `replace`, `title`, `int()` and decimal formatting.
- `Tables`: the pandas operations above.
- `Calendar`: months, dates and `to_period("M")`.
- `Raw`: the decoded JSON records.
- `MemberUtils`, `DateUtils` and `DataUtils`: the utility functions.
- `Members`: the members tables and their figures.
- `Activities`, `Reconciliation` and `LegacyProcessing`: the two activity pipelines.
- `MemberGrowth`, `Metrics`, `Revenue` and `ActivityFeed`: the computations behind the panels.

Code that updates state in place is modelled as imperative Dafny, proved against specification functions:

- the append loops of `process_members_data`, `process_subscription_activities` and `calculate_recent_orders`;
- the month loop and the in-place Starting/Total updates of the reconciliation;
- the `change_by_type` loop;
- the backward running total;
- the frames that `calculate_mrr` and `clean_period_data` add columns to.

## Model

| member | source | states |
|---|---|---|
| MemberUtils.LatestIndex | src/utils/member_utils.py:12-13 | The order chosen as most recent has the greatest `createdAt` (missing = 0). Among ties it is the first in the list, as a stable newest-first sort puts it. |
| MemberUtils.LatestUnique | utils.py:22-23 | At most one position satisfies that, so "the most recent order" is well defined. |
| MemberUtils.IsEducationMember | src/utils/member_utils.py:5-22 | A member is an education member only when some order is a free order with the "Education" coupon. |
| MemberUtils.EducationMemberIff | src/utils/member_utils.py:16-22 | A member is an education member exactly when the most recent order has `totalCents` (missing = 0) equal to 0 and a coupon whose code is exactly "Education". |
| MemberUtils.NoOrdersNotEducation | utils.py:17-19 | A member without orders is never an education member. |
| MemberUtils.PaidOrCouponlessLatestNotEducation | src/utils/member_utils.py:16-20 | A non-zero total, a missing coupon or another code on the latest order gives false. |
| MemberUtils.OlderOrderIrrelevant | utils.py:21-32 | Inserting an order older than the latest one anywhere in the list never changes the result. |
| DateUtils.DateNMonthsAgo | src/utils/date_utils.py:9-10 | When today's month is greater than n, the result has the same year and month − n. Otherwise it has year − 1 and month + 12 − n. The day is kept. It fails exactly when `replace` would reject the requested date. |
| DateUtils.MonthsBack | utils.py:11-12 | For 0 ≤ n ≤ 12 the requested month lies in 1..12 and is exactly n months before today's month. |
| DateUtils.SmallDayAlwaysSucceeds | src/utils/date_utils.py:9-10 | With a day of month up to 28, every 0 ≤ n ≤ 12 succeeds. |
| DateUtils.ZeroMonthsAgo | src/utils/date_utils.py:9 | n = 0 gives today's date. |
| DateUtils.TwelveMonthsAgo | utils.py:11-12 | n = 12 gives the same month and day one year earlier, except on a leap day. |
| DateUtils.MissingDaysFail | src/utils/date_utils.py:9-10 | 31 March minus one month fails, and so does 29 February minus twelve months. |
| DateUtils.FormatDateRoundTrip | src/utils/date_utils.py:11 | The "%Y-%m-%d" text reads back as the same date, with month and day padded to two digits. |
| DateUtils.GetDateNMonthsAgo | utils.py:8-13 | Succeeds exactly when the date arithmetic does. Its text parses back to that date. |
| DataUtils.ExtractYm | src/utils/data_utils.py:12-22 | Gives a key only for a present string with exactly one '-'. |
| DataUtils.ExtractYmOfPeriod | src/utils/data_utils.py:16-19 | A printed "YYYY-MM" period reads back as Y × 100 + M. |
| DataUtils.MissingPeriodHasNoKey | src/utils/data_utils.py:14-15 | A missing period (printed "NaT") and a missing value give no key. |
| DataUtils.SortKeyIsChronological | src/utils/data_utils.py:30 | For valid months, key order is calendar order, and equal keys mean the same month. |
| DataUtils.KeptRows | src/utils/data_utils.py:27 | The kept rows are exactly one per present key: their number is the number of rows whose key was read, never more than the input rows. |
| DataUtils.KeptRowsFromTable | utils.py:64-65 | Every kept row is an input row whose key is present. |
| DataUtils.KeptRowsComplete | src/utils/data_utils.py:27 | Conversely, every input row whose key was read is kept, with that key. |
| DataUtils.PeriodFrame.CleanPeriodData | src/utils/data_utils.py:6-31 | Adds the string column and the sort-key column to the frame in place, leaving the rows unchanged. Returns the rows that have a key, sorted ascending by key, as a permutation of those rows. |
| DataUtils.CleanedRowsHaveKeys | utils.py:62-68 | Every returned row comes from an input row whose key is present and equal to its sort key. |
| DataUtils.CleanedRowsComplete | utils.py:62-68 | Every input row whose key was read is in the cleaned table, and the table has exactly as many rows as there are present keys. |
| Members.RowsOfMember | src/data/members.py:30-45 | One subscription row per nested subscription of a member. |
| Members.ProcessMembersData | src/data/members.py:8-56 | One member row per raw member, in input order. The subscription table is the members' rows in input order, built by the nested append loops. |
| Members.SubscriptionRows | src/data/members.py:23-45 | The subscription table has as many rows as the members have subscriptions in total. |
| Members.SubscriptionRowOwner | src/data/members.py:31-44 | Subscription j of member i sits right after the rows of the earlier members. It carries its owner's id, name, email and education flag. |
| Members.SubscriptionRowsAround | data_processing.py:24-47 | The table is the earlier members' rows, then member i's rows, then the later members' rows. |
| Members.SubscriptionRowsAppend | data_processing.py:25-33 | Flattening a concatenation of member lists concatenates their tables. |
| Members.FlattenDefaults | src/data/members.py:36-41 | Field by field: the ids, education flag and times are copied. `active` and `auto_renew` are True exactly when present and True. Each plan field is copied when present and otherwise defaults: name "Unknown", price 0, unit "" and count 1. A missing plan leaves every plan field missing. |
| Members.SnapshotMonthlyValue | src/data/members.py:115-122 | The monthly value is defined exactly for the units month, week and year. Any other unit divides by zero. |
| Members.SnapshotMonthlyValueScale | data_processing.py:100-107 | A weekly price counts four times per month and a yearly price a twelfth. The count divides all three, and a count of 0 reads as 1. |
| Members.MonthlyValues | src/data/members.py:115-122 | Gives each row's monthly value, or fails exactly when some row has an unknown unit. |
| Members.MrrOf | src/data/members.py:109-149 | An empty table gives (0, 0, 0, 0). A successful result counts education ≤ active ≤ rows and paying ≤ rows. |
| Members.Summarize | src/data/members.py:124-147 | The education count is at most the active count, which is at most the number of rows; the paying count is at most the number of rows. |
| Members.SubscriptionFrame.CalculateMrr | src/data/members.py:109-149 | Returns `calculate_mrr`'s result. It adds the `monthly_value` column to the frame whenever that column can be computed for a non-empty table. |
| Members.MrrOfEmpty | src/data/members.py:111-112 | An empty table gives (0, 0, 0, 0). |
| Members.MrrFailsIffUnknownUnit | src/data/members.py:119 | The computation aborts exactly when some row's unit is not month, week or year. |
| Members.SummaryCounts | src/data/members.py:124-147 | Paying is the number of distinct subscription ids among active non-education rows. Active and education are the numbers of distinct member ids among active rows and active education rows, so education ≤ active. MRR × 100 is the sum over one row per paying subscription. |
| Members.EducationKeysAreActiveKeys | data_processing.py:124-130 | Every member counted as an education member is also counted as active. |
| Members.ExtraSeatCountsOnce | data_processing.py:116-121 | Another seat of a paying group subscription changes neither MRR nor the paying count. |
| Members.LatestSubscription | src/data/members.py:65 | For each member, returns a subscription of that member with maximal `created_at` (missing times last). It returns one exactly when the member has any. |
| Members.PrepareNewMembers | src/data/members.py:77-90 | No more rows than subscriptions, and every row was created at or after now − days × 86400. |
| Members.PrepareAllMembersView | src/data/members.py:58-75 | Empty when there are no subscriptions. Otherwise there is one row per member, in order. The row holds nulls exactly when the member has no subscription, else the columns of a latest subscription. |
| Members.NewMembersFacts | src/data/members.py:77-90 | Rows come from the input and were created at or after now − days. Their subscription ids are pairwise distinct, and every such subscription appears. |
| Members.CalculateRecentOrders | src/data/members.py:92-107 | Dollars are the cents of completed orders created at or after the cutoff, over 100. |
| Members.IgnoredOrderAddsNothing | src/data/members.py:104-105 | An order that is not completed, or is older than the cutoff, adds nothing. |
| Members.RecentCentsAppend | src/data/members.py:102-105 | The total over a concatenation of members is the sum of the two totals. |
| Members.NoOrdersNoRecentCents | src/data/members.py:94-95 | Members without orders give 0. |
| Activities.EducationEmailIff | src/data/activities.py:53-54 | The email test is exactly "the lower-cased email ends with .edu", because every listed suffix ends with ".edu". |
| Activities.ActivityMonthlyValue | src/data/activities.py:65-80 | A non-negative price and count give a non-negative value. With a count of 0 or 1, a weekly price is four times the value, a yearly price twelve times, and any other unit the value itself. |
| Activities.PaidCategory | src/data/activities.py:96-124 | The category is one of the eight paid categories. Renewals and "Other" move nothing; downgrades, cancellations and failed payments remove the value; new members, reactivations and upgrades add it. |
| Activities.PaidCategoryByType | src/data/activities.py:96-124 | Type by type, in the order tested: `new_subscription`/`new_order` are new members, then reactivations, upgrades, downgrades and the two cancellation types. Types that are none of these and mention a failed payment are failed payments. `renewal` is a renewal, and everything else is "Other". |
| Activities.ActivityValueAgainstSnapshot | src/data/activities.py:73-80 | Compared with `calculate_mrr`'s value, the activity value agrees on monthly and yearly plans. On weekly plans it is a sixteenth of that value. Unknown units count as monthly. |
| Activities.RecordOf | src/data/activities.py:134-159 | The id, type and education flag are copied. The subscription id and plan columns are present exactly when the activity has a subscription. The record has a time exactly when `created_at` is present and non-zero; the time is that `created_at` and gives the month. An education record has impact 0. |
| Activities.NormalizeActivity | src/data/activities.py:27-159 | The education flag is exactly the email-or-coupon test, an education record moves nothing, and the subscription id is present exactly with a subscription. |
| Activities.ProcessSubscriptionActivities | src/data/activities.py:21-168 | Fails exactly when there are activities but none has a usable time: the all-`None` `created_at` column has no `.dt`. Otherwise there is exactly one record per activity, in order, none skipped. The loop's email check and coupon search (stopping at the first match) give the education flag of the specification. |
| Activities.ImpactFollowsCategory | src/data/activities.py:82-124 | Every impact is its category's sign times the monthly value, and dollars are cents / 100. The sign is + for new members, reactivations and upgrades, − for downgrades, cancellations and failed payments, and 0 otherwise. |
| Activities.EducationActivitiesAreNeutral | src/data/activities.py:82-94 | Education activities have impact 0. When priced they are in one of the four "Education …" categories. |
| Activities.UnsubscribedActivities | src/data/activities.py:126-132 | An activity without a subscription has impact 0, no subscription id and no plan columns. Its category is one of "Free signups", "Team member changes", "Subscription changes" or "Other", and it is "Free signups" exactly for `free_signup`. |
| Activities.FailedPaymentsCatchAll | src/data/activities.py:117-120 | A priced paying activity whose type mentions a failed payment is a failed payment that removes its monthly value. |
| Activities.CalculateMonthlyMrrChanges | src/data/activities.py:172-319 | Empty input gives an empty result. Otherwise the result is the reconciliation of the activities' ledger over the window, with lower-case labels, starting at 487.71. |
| Reconciliation.EnumerateMonths | src/data/activities.py:192-201 | Lists the consecutive months from the start date's month. Each listed month's first is no later than the end, and the loop stops at the first month whose first is later (December rolls over to January). |
| Reconciliation.MonthRangeLength | data_processing.py:286-295 | The number of months runs from the start month through the month before the end's. The end's own month is included when its first, at the start time, is not after the end. |
| Reconciliation.MonthRangeConsecutive | src/data/activities.py:198-201 | Consecutive listed months are calendar neighbours. |
| Reconciliation.CategorySumNoEntries | src/data/activities.py:246-265 | A (month, category) pair without activity sums to 0. |
| Reconciliation.MonthDeltas | src/data/activities.py:207 | The six deltas of a month are the per-category sums of that month. |
| Reconciliation.Reconcile | src/data/activities.py:290-317 | Each month's total is its starting value plus its deltas. The first month starts at the initial value, and each later month starts at the previous month's total. |
| Reconciliation.Telescoping | src/data/activities.py:290-317 | The last month's total is the initial value plus all deltas of the window. |
| Reconciliation.QuietMonth | data_processing.py:382-409 | A month without activities ends where it started. |
| Reconciliation.MonthRows | src/data/activities.py:229-241 | Eight rows per month, labels in order 0..7: Starting, the six deltas, then Total. |
| Reconciliation.RowsAt | src/data/activities.py:268-279 | Row 8i + c of the result is category c of month i. |
| Reconciliation.MonthlyChanges | data_processing.py:278-411 | Empty input gives an empty result. A window without months fails. Otherwise the result is the reconciled rows of the listed months. |
| LegacyProcessing.LegacyValueMatchesSnapshot | data_processing.py:174-181 | On month, week and year the legacy value equals `calculate_mrr`'s. Any other unit counts as monthly. |
| LegacyProcessing.LegacyMonthlyValue | data_processing.py:174-181 | A non-negative price and count give a non-negative value. With a count of 0 or 1, the weekly value is four times the price, a yearly price twelve times the value, and any other unit the price. |
| LegacyProcessing.LegacyCategory | data_processing.py:205-234 | The category is one of the seven legacy categories. "Other" moves nothing, upgrades and downgrades move new − previous, new members and reactivations add the value, and cancellations and failed payments remove it. |
| LegacyProcessing.LegacyCategoryByType | data_processing.py:205-234 | Type by type: each of the seven exact types has its own category, and every other type, `renewal` included, is "Other". |
| LegacyProcessing.LegacyRecords | data_processing.py:155-158 | One record per activity with a subscription, in order: record i is that of the i-th such activity, and there are never more records than activities. |
| LegacyProcessing.LegacyRecordOf | data_processing.py:160-253 | The id, type and subscription id are copied. The record has a time exactly when `created_at` is present and non-zero; the time is that `created_at` and gives the month. |
| LegacyProcessing.LegacyProcessSubscriptionActivities | data_processing.py:136-262 | Fails exactly when some activity has a subscription but none of those has a usable time. Otherwise the loop returns the record of each subscribed activity, in order. |
| LegacyProcessing.LegacyNoTimesIff | data_processing.py:237-262 | The record table is non-empty without any time exactly when some activity has a subscription and none of those has a usable `created_at`. |
| LegacyProcessing.LegacyRecordsAreTheSubscribed | data_processing.py:156-158 | There is a record exactly for each activity with a subscription. |
| LegacyProcessing.PlanChangesAreNetDifferences | data_processing.py:183-222 | Upgrades and downgrades move MRR by new − old. Without a previous plan, old is 0. |
| LegacyProcessing.LegacyImpactByCategory | data_processing.py:206-234 | New members and reactivations add the value. Cancellations and failed payments remove it. "Other" moves nothing, and dollars are cents / 100. |
| LegacyProcessing.LegacyImpactIsReconciled | data_processing.py:402-406 | Every record that moves MRR lands in one of the six delta categories. |
| LegacyProcessing.LegacyCalculateMonthlyMrrChanges | data_processing.py:266-411 | The same reconciliation as the newer version, with capitalised labels and a starting value of 0. |
| MemberGrowth.CountsByMonth | src/visualizations/member_growth.py:63 | A count table has exactly the months that occur. |
| MemberGrowth.CountsArePositive | src/visualizations/member_growth.py:115 | Each count is between 1 and the number of rows. |
| MemberGrowth.FallbackNew | src/visualizations/member_growth.py:113-118 | Every count of the fallback "new" table is between 1 and the number of subscription rows. |
| MemberGrowth.NewCountsDistinctSubscriptions | src/visualizations/member_growth.py:28-32 | The fallback "new" table has every creation month of the window's subscriptions. Each count is the number of distinct subscriptions created that month. |
| MemberGrowth.ChurnedCountsDistinctSubscriptions | src/visualizations/member_growth.py:119-127 | The fallback "churned" table counts, per expiry month, the distinct subscriptions of the window that are inactive and expired by today. |
| MemberGrowth.ChangeByType | src/visualizations/member_growth.py:55-64 | The loop builds a count table for exactly the change types that have activities in the window. |
| MemberGrowth.ActivityCountsOncePerSubscription | src/visualizations/member_growth.py:57-64 | Each subscription is counted at most once per change type over the whole window, and every subscription with an activity of that type is counted. |
| MemberGrowth.NoRecentActivitiesFallsBack | src/visualizations/member_growth.py:95-130 | Without activities in the window, "new" and "churned" come from the subscription table and there are no renewals. |
| MemberGrowth.ChangeCounts | src/visualizations/member_growth.py:41-130 | Each table comes from the activities when they have it and from the fallback otherwise. It also reports whether the churn table is the untyped empty frame. |
| MemberGrowth.CountedTableHasMonth | src/visualizations/member_growth.py:61-63 | A count table built from a non-empty set of activities of one type has at least one month. |
| MemberGrowth.EmptyUnionHasUntypedChurn | src/visualizations/member_growth.py:74-85 | When no table has any month, the churn table is the empty frame built from bare column names, whose month column has no period type. |
| MemberGrowth.SelectCounts | src/visualizations/member_growth.py:67-130 | Without an activity table the counts are the fallback ones and there are no renewals. Renewals, or counts other than the fallback ones, occur only when there are activities in the window. |
| MemberGrowth.MonthChangeOf | src/visualizations/member_growth.py:143-153 | Absent counts are 0, and net = new − churned. |
| MemberGrowth.SortMonths | src/visualizations/member_growth.py:239 | Every month of the union appears once, in strictly chronological order. |
| MemberGrowth.MonthlyChangeTable | src/visualizations/member_growth.py:132-172 | Fails with a key-type mismatch exactly when the month union is empty and the churn table is untyped. In that case both merge keys are empty, so pandas compares a period column with an object one. Otherwise it gives one row per month of the union, oldest first, with the counts filled in. |
| MemberGrowth.GrowthChangeTable | src/visualizations/member_growth.py:132-172 | Fails exactly when no table has a month. Otherwise it is the change table of the selected counts: one row per month that has any count, oldest first, each row the month's counts with absent ones 0. |
| MemberGrowth.CurrentActiveIsDistinctMembers | src/visualizations/member_growth.py:235-236 | The current count is the number of distinct member ids among active rows. |
| MemberGrowth.BackwardTotalsAsWritten | src/visualizations/member_growth.py:254-275 | The loop as written: the latest month keeps today's count, and each earlier month undoes its own new and churned counts. |
| MemberGrowth.AsWrittenCounterexample | src/visualizations/member_growth.py:263-275 | Two months with 0 and 5 new members and 10 active today: the loop gives [10, 10], which breaks the month-by-month balance. The corrected totals are [5, 10]. |
| MemberGrowth.BackwardTotals | src/visualizations/member_growth.py:263-275 | The corrected reconstruction: the latest total is today's count, and every month's total is the previous total plus its new members minus its churned ones. |
| MemberGrowth.AsWrittenIsDelayedBalance | src/visualizations/member_growth.py:263-275 | The totals the loop writes are exactly the balanced totals of the changes shifted one month later: each month carries the previous month's new and churned counts, and the first month carries none. |
| MemberGrowth.ForwardBalanceUnique | src/visualizations/member_growth.py:242-275 | For the corrected totals: today's count and the changes determine the balanced totals. |
| MemberGrowth.ContinuingCarriesOver | src/visualizations/member_growth.py:280 | For the corrected totals: continuing members are the previous total minus the month's cancellations. |
| MemberGrowth.GrowthRowOf | src/visualizations/member_growth.py:278-289 | Continuing = total − new. Cancelled = −churned when churned > 0, else 0 (never positive). Renewals are present exactly when some month has renewals. |
| MemberGrowth.MembershipTable | src/visualizations/member_growth.py:242-294 | The table as the code writes it: one row per month, in order, with totals that keep today's count in the latest month and, going back, undo each month's own new and churned counts. |
| MemberGrowth.MembershipTableIntended | src/visualizations/member_growth.py:263-275 | The corrected table: one row per month, in order, the last total today's count and the totals balanced month by month. |
| MemberGrowth.MemberGrowth | src/visualizations/member_growth.py:17-294 | An empty table shows nothing. A non-empty one fails in the merge exactly when no table has a month: nothing created in the window, nothing expired, and no counted activity. Otherwise the change table is chronological with one entry per month, and the totals are those the code writes, starting back from the current active-member count. |
| MemberGrowth.MemberGrowthIntended | src/visualizations/member_growth.py:263-275 | The same tables, failing in the same case, with the corrected totals: the last total is the current active-member count and the totals are balanced month by month. |
| Metrics.SnapshotMembers | src/ui/metrics.py:48-51 | The snapshot keeps exactly the rows created no later than T and not expired by T (a missing expiry never expires). |
| Metrics.CountPlan | src/ui/metrics.py:28-42 | Accounts and seats are each at most the number of rows on the plan, and at least 1 when the plan has a row. |
| Metrics.AccountsAtMostSeats | src/ui/metrics.py:34-42 | A plan has no more accounts (distinct subscriptions) than seats (distinct members), as long as no member holds two of its subscriptions. |
| Metrics.TwoAccountsOneSeat | src/ui/metrics.py:35-37 | One member with two subscriptions of a plan makes two accounts and one seat. |
| Metrics.PreviousMrrMatchesSummary | src/ui/metrics.py:79-83 | On active rows, the previous MRR follows `calculate_mrr`'s rule: one row per non-education subscription, summed and divided by 100, and 0 for none. |
| Metrics.MrrOfRows | src/ui/metrics.py:78-83 | Non-negative monthly values give a non-negative MRR. |
| Metrics.MembershipMetrics | src/ui/metrics.py:8-122 | Fails exactly when `calculate_mrr` does and returns its active count. It has figures exactly for a non-empty table. |
| Metrics.SteadyStateNoChange | src/ui/metrics.py:54-87 | When every row is active and was already live thirty days ago, every count change is 0, the MRR change is 0 and the percentage is 0. |
| Tables.PercentChange | src/ui/metrics.py:86-87 | The percentage is 0 when the previous value is ≤ 0. Otherwise it is the change over the previous value × 100, with the sign of the change. |
| Revenue.PlanTableKeysAreActive | src/visualizations/revenue.py:56-62 | Every plan in the table belongs to an active row. |
| Revenue.ActivePlansAreTableKeys | src/visualizations/revenue.py:56-62 | When a subscription's rows share one plan, every plan of an active row is in the table. |
| Revenue.PlanRevenueTable | src/visualizations/revenue.py:54-65 | The plans of the table are exactly the plans of the distinct active subscriptions. Every plan's revenue in dollars is its monthly value in cents over 100. |
| Revenue.PlanTableSize | src/visualizations/revenue.py:54-65 | The table has at most one entry per input row. |
| Revenue.PlanRevenuesAddUp | src/visualizations/revenue.py:56-64 | Summed over all plans, revenue is the monthly value of the distinct active subscriptions, education included, over 100. |
| Revenue.PlanMembersWithinSubscriptions | src/visualizations/revenue.py:59-62 | A plan's rows are one per subscription, and 1 ≤ members ≤ its number of subscriptions. |
| Revenue.AveragePerMember | src/visualizations/revenue.py:98-101 | Revenue / members when there are members, else 0. |
| Revenue.PlanAverage | src/visualizations/revenue.py:96-101 | Every plan in the table has members, so average × members = revenue. |
| Revenue.Measures | src/visualizations/revenue.py:171-176 | The bar is "total" exactly for Starting MRR and Total MRR, and "relative" otherwise. |
| Revenue.MonthWaterfall | src/visualizations/revenue.py:166-176 | A reconciled month draws balance bars first and last, and the last bar is the first plus the six changes. |
| Revenue.BreakdownOf | src/visualizations/revenue.py:396-409 | Fails for no activities, and separately for no activities in the last 365 days. |
| Revenue.BreakdownBars | src/visualizations/revenue.py:412-439 | Gives a bar exactly for each of the six delta categories with activity in a month of the last year. Other categories are dropped, and negative bars are ≤ 0 with the magnitude of the sum. |
| Revenue.SignForcingKeepsSums | src/visualizations/revenue.py:438-439 | When the negative categories' impacts are already ≤ 0, forcing the sign changes nothing. |
| Revenue.BreakdownMatchesReconciliation | src/visualizations/revenue.py:412-416 | For a month lying within the last year, a bar (before sign forcing) is that month's delta in the reconciliation. |
| Revenue.GrowthOf | src/visualizations/revenue.py:355-365 | Needs at least two months. Growth is 0 when the previous total is ≤ 0, otherwise the relative change × 100. The amount is latest − previous, and the annual estimate is 12 × latest. |
| Revenue.TotalSeriesOfRows | src/visualizations/revenue.py:293 | The Total MRR rows of the reconciliation are the months' totals, in order. |
| Revenue.ReconciledGrowth | src/visualizations/revenue.py:355-362 | On a reconciled table the growth amount is exactly the last month's net change. |
| ActivityFeed.RenewalFailedLabel | src/visualizations/activities.py:30-31 | A type containing both "renewal" and "failed" is "Renewal failed" once the exact types tested before it are excluded. |
| ActivityFeed.RenewalLabel | src/visualizations/activities.py:22-33 | "renewal" is not caught by the failed-renewal test and gets "Subscription renewed". `new_order` and `new_subscription` get "New subscription". |
| ActivityFeed.FormatActivityType | src/visualizations/activities.py:21-45 | A type without its own label keeps its length and loses every underscore. |
| ActivityFeed.FallbackLabel | src/visualizations/activities.py:44-45 | An unknown type keeps its length, has no underscores left, and capitalises every word. |
| ActivityFeed.EducationEmoji | src/visualizations/activities.py:89-97 | Education rows always get 🎓. It is crossed out exactly for a deactivation label that is not a subscription or renewal label. |
| ActivityFeed.EducationEntriesUnused | src/visualizations/activities.py:59-62 | No label is an education category, so those four table entries are never used. |
| ActivityFeed.OwnLabelsHaveEmoji | src/visualizations/activities.py:48-58 | Every type with its own label finds that label in the emoji table, except a reactivation. |
| ActivityFeed.FallbackEmoji | src/visualizations/activities.py:65-66 | Every unknown type of a non-education row gets the default ℹ️. |
| ActivityFeed.ActivityEmoji | src/visualizations/activities.py:84-100 | An education row's emoji starts with 🎓. Any other row gets the default or an emoji of the table. |
| ActivityFeed.RoundDollars | src/visualizations/activities.py:117-124 | `%.0f` of cents / 100 gives the nearest dollar, ties to even. |
| ActivityFeed.PlanDetailsName | src/visualizations/activities.py:115-125 | Empty exactly without a plan name or price. Otherwise it starts with the name followed by " ($", and when the name itself does not contain " ($", that is the first occurrence. |
| ActivityFeed.FormatPlanDetails | src/visualizations/activities.py:115-125 | The details are empty exactly without a plan, a name or a price, and otherwise end in ")". |
| ActivityFeed.PlanDetailsUnits | src/visualizations/activities.py:118-124 | The rounded price and a slash come next. The text ends in "/N units)" exactly when the count exceeds 1, else in "/unit)", with the unit defaulting to "month". |
| ActivityFeed.FeedItems | src/visualizations/activities.py:78-127 | One feed line per activity: the member name (default "Unknown"), label, emoji and plan details. |
| ActivityFeed.ShowMemberActivities | src/visualizations/activities.py:190-194 | Shows min(n, 100) lines, newest first (missing times last), drawn from the activities. No activity left out is newer than one shown. |
| ActivityFeed.SortNewestFirst | src/visualizations/activities.py:190-191 | The items come out newest first (missing times last), as a permutation of the input. |

## Left out

- Network I/O: the Memberful API client, pagination and API keys.
- The Streamlit and Plotly rendering, session state, the password gate and CSV export.
- The legacy top-level `app.py` and `visualizations.py`, and the education charts. Their computations repeat the ones modelled here.
- The equal copies of `is_education_member`, `get_date_n_months_ago`, `clean_period_data`, `process_members_data` and `calculate_mrr`: each is modelled once, and the rows above cite both copies.
- Local time: `datetime.fromtimestamp` and `datetime.now()` use the local timezone. The model buckets Unix seconds into UTC months (as `pd.to_datetime(unit="s")` does) and takes "now" as a parameter in the same scale.
- Floating point: amounts are exact rationals. `round(…, 1)`, `:.2f`, the `%b %Y` month names and the feed timestamps are not modelled.
- ActivityFeed.FormatPlanDetails: an interval count stored as a float ("3.0") is printed as an integer.
- Strings.Lower: case mapping is ASCII only. `str.title` is modelled for ASCII letters.
- Strings.ParseInt: `int()`'s underscores and other Unicode digits are not modelled. Surrounding whitespace and a sign are.
- Raw: a JSON `null` and an absent key are the same `None`. Where `.get(k, default)` would return `null` (and the source would then crash on `None`), the model uses the default.
- The subscription of an activity is modelled as present with an id, or absent.
- Sorting: pandas' default sort is not stable. The model specifies only that the chosen subscription has maximal creation time, and that the feed is newest first and drawn from the activities. The order among ties is not specified.
- Reconciliation.EnumerateMonths: requires the end date's year to be below 9999, where `replace(year + 1)` would raise.
- DataUtils.PeriodString: years are printed padded to four digits, as pandas periods print them.
- Revenue.PlanRevenueTable: a map from plan to its row. The groupby's row order and the pie-chart percentages are left out.
- Revenue.BreakdownOf: the bars are maps keyed by (month, category). Their display order, and the `%b %Y` round trip of the month names, are left out.
- The trend chart's sort of the Total MRR rows: the reconciliation already lists them in month order.
- The waterfall's text labels, and the month selection of both charts.
- The compact description of the feed, its timestamp and the profile URL.
- The ×0.25 weekly value of the activity pipeline lacks a correction here. It is the behaviour of the code and feeds the reconciliation as written; `Activities.ActivityValueAgainstSnapshot` states how it differs from the members-table value.

## Findings

| source | as written | input that shows it | evidently intended | confidence | as-written member | corrected member |
|---|---|---|---|---|---|---|
| src/visualizations/member_growth.py:263-275 | Walking back from the latest month, each earlier month's total is the later total minus the earlier month's own new members plus its own cancellations. | Two months with 0 and then 5 new members, no cancellations, and 10 active members today give totals [10, 10]. Ten members plus five new is not ten. | Each earlier month undoes the following month's changes, giving [5, 10]. The totals then satisfy total(m) = total(m − 1) + new(m) − churned(m). | not executed | MemberGrowth.BackwardTotalsAsWritten, MemberGrowth.AsWrittenCounterexample, MemberGrowth.AsWrittenIsDelayedBalance, MemberGrowth.MembershipTable, MemberGrowth.MemberGrowth | MemberGrowth.BackwardTotals, MemberGrowth.MembershipTableIntended, MemberGrowth.MemberGrowthIntended |

`MemberGrowth.MembershipTable` and `MemberGrowth.MemberGrowth` model the code as written, with the loop's totals. `MemberGrowth.MembershipTableIntended` and `MemberGrowth.MemberGrowthIntended` are the same computations with the corrected totals.
