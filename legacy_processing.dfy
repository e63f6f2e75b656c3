/** The older activity processing of `data_processing.py`: activities without
    a subscription are skipped, plans get defaults, upgrades and downgrades
    are valued against the previous plan, and the reconciliation starts
    from 0 with capitalised category labels. */
module LegacyProcessing {
  import opened Base
  import opened Calendar
  import opened Raw
  import opened Tables
  import opened Members
  import opened Reconciliation

  /** The monthly value in cents: the price divided by 0.25 for a weekly
      plan, 12 for a yearly one, 1 otherwise, times the interval count (0 read
      as 1). */
  function LegacyMonthlyValue(priceCents: int, unit: string, count: int): (v: real)
    ensures priceCents >= 0 && count >= 0 ==> v >= 0.0
    ensures count == 0 || count == 1 ==>
      && (unit == "week" ==> v == 4.0 * priceCents as real)
      && (unit == "year" ==> 12.0 * v == priceCents as real)
      && (unit != "week" && unit != "year" ==> v == priceCents as real)
  {
    var multiplier := if unit == "week" then 0.25 else if unit == "year" then 12.0 else 1.0;
    var c := if count == 0 then 1 else count;
    priceCents as real / (multiplier * c as real)
  }

  /** On the three known units the legacy value is the snapshot value of the
      members table; on any other unit it is the monthly value. */
  lemma LegacyValueMatchesSnapshot(priceCents: int, unit: string, count: int)
    ensures unit in {"month", "week", "year"} ==>
      SnapshotMonthlyValue(priceCents, unit, count) == Some(LegacyMonthlyValue(priceCents, unit, count))
    ensures unit !in {"month", "week", "year"} ==>
      LegacyMonthlyValue(priceCents, unit, count) == LegacyMonthlyValue(priceCents, "month", count)
  {
    var p := priceCents as real;
    var c := (if count == 0 then 1 else count) as real;
    assert p / 0.25 / c == p / (0.25 * c);
    assert p / 12.0 / c == p / (12.0 * c);
    assert p / 1.0 / c == p / (1.0 * c);
  }

  /** A plan's value with the legacy defaults: price 0, unit "month", count 1. */
  function PlanValue(plan: RawPlan): real {
    LegacyMonthlyValue(plan.priceCents.GetOr(0), plan.intervalUnit.GetOr("month"), plan.intervalCount.GetOr(1))
  }

  /** The previous plan of an upgrade or downgrade, when its previous data
      carries one. */
  function PreviousPlan(a: RawActivity): Option<RawPlan> {
    if (a.activityType == "upgrade" || a.activityType == "downgrade") && a.previousData.Some? then
      a.previousData.value.plan
    else None
  }

  /** A row of the legacy activities table. */
  datatype LegacyRecord = LegacyRecord(
    id: Option<string>,
    activityType: string,
    category: string,
    createdAt: Option<int>,
    memberId: Option<string>,
    memberName: Option<string>,
    subscriptionId: string,
    planName: string,
    planPriceCents: int,
    monthlyValue: real,
    mrrImpactCents: real,
    mrrImpactDollars: real,
    oldPlanId: Option<string>,
    oldPlanPriceCents: int,
    oldMonthlyValue: real,
    month: Option<YearMonth>)

  /** The category and impact in cents of activity type `t` on a plan worth
      `v`, the previous plan being worth `previous`. */
  function LegacyCategory(t: string, v: real, previous: real): (k: Classification)
    ensures k.category in {"New Members", "Reactivations", "Upgrades", "Downgrades", "Cancellations",
      "Failed Payments", "Other"}
    ensures k.category == "Other" ==> k.impact == 0.0
    ensures k.category in {"Upgrades", "Downgrades"} ==> k.impact == v - previous
    ensures k.category in {"New Members", "Reactivations"} ==> k.impact == v
    ensures k.category in {"Cancellations", "Failed Payments"} ==> k.impact == -v
  {
    if t == "new_subscription" then Classification("New Members", v)
    else if t == "subscription_reactivated" then Classification("Reactivations", v)
    else if t == "upgrade" then Classification("Upgrades", v - previous)
    else if t == "downgrade" then Classification("Downgrades", -(previous - v))
    else if t == "subscription_deleted" || t == "subscription_deactivated" then Classification("Cancellations", -v)
    else if t == "renewal_payment_failed" then Classification("Failed Payments", -v)
    else Classification("Other", 0.0)
  }

  datatype Classification = Classification(category: string, impact: real)

  /** Which type lands in which legacy category; every other type, renewals
      included, is "Other". */
  lemma LegacyCategoryByType(t: string, v: real, previous: real)
    ensures var k := LegacyCategory(t, v, previous);
      && (k.category == "New Members" <==> t == "new_subscription")
      && (k.category == "Reactivations" <==> t == "subscription_reactivated")
      && (k.category == "Upgrades" <==> t == "upgrade")
      && (k.category == "Downgrades" <==> t == "downgrade")
      && (k.category == "Cancellations" <==> t == "subscription_deleted" || t == "subscription_deactivated")
      && (k.category == "Failed Payments" <==> t == "renewal_payment_failed")
      && (k.category == "Other" <==> t !in {"new_subscription", "subscription_reactivated", "upgrade", "downgrade",
        "subscription_deleted", "subscription_deactivated", "renewal_payment_failed"})
  {
  }

  /** The record of an activity that has a subscription. */
  function LegacyRecordOf(a: RawActivity): (r: LegacyRecord)
    requires a.subscription.Some?
    ensures r.id == a.id && r.activityType == a.activityType && r.subscriptionId == a.subscription.value.id
    ensures r.createdAt.Some? <==> HasTimestamp(a)
    ensures r.createdAt.Some? ==> r.createdAt == a.createdAt
    ensures r.month.Some? <==> r.createdAt.Some?
  {
    var member := a.member.GetOr(RawActivityMember(None, None, None));
    var sub := a.subscription.value;
    var plan := sub.plan.GetOr(RawPlan(None, None, None, None, None));
    var v := PlanValue(plan);
    var previous := PreviousPlan(a);
    var prevValue := if previous.Some? then PlanValue(previous.value) else 0.0;
    var k := LegacyCategory(a.activityType, v, prevValue);
    var createdAt := if a.createdAt.None? || a.createdAt == Some(0) then None else a.createdAt;
    LegacyRecord(
      a.id, a.activityType, k.category, createdAt, member.id, member.fullName, sub.id,
      plan.name.GetOr("Unknown"), plan.priceCents.GetOr(0), v, k.impact, k.impact / 100.0,
      if previous.Some? then previous.value.id else None,
      if previous.Some? then previous.value.priceCents.GetOr(0) else 0,
      prevValue,
      if createdAt.Some? then Some(MonthOf(createdAt.value)) else None)
  }

  predicate HasSubscription(a: RawActivity) {
    a.subscription.Some?
  }

  /** The records of the activities that have a subscription, in order. */
  function LegacyRecords(activities: seq<RawActivity>): (r: seq<LegacyRecord>)
    ensures |r| == |Filter(activities, HasSubscription)| <= |activities|
    ensures forall i :: 0 <= i < |r| ==> r[i] == LegacyRecordOf(Filter(activities, HasSubscription)[i])
  {
    var kept := Filter(activities, HasSubscription);
    seq(|kept|, i requires 0 <= i < |kept| => LegacyRecordOf(kept[i]))
  }

  /** The loop of the legacy `process_subscription_activities`: skip the
      activities without a subscription, record the others. Adding the
      month column fails when some activity has a subscription but none of
      those has a usable time. */
  method LegacyProcessSubscriptionActivities(activities: seq<RawActivity>) returns (r: Result<seq<LegacyRecord>, FrameError>)
    ensures r.Failure? <==>
      && (exists i :: 0 <= i < |activities| && HasSubscription(activities[i]))
      && (forall i :: 0 <= i < |activities| && HasSubscription(activities[i]) ==> !HasTimestamp(activities[i]))
    ensures r.Success? ==> r.value == LegacyRecords(activities)
  {
    var records := [];
    for i := 0 to |activities|
      invariant records == LegacyRecords(activities[..i])
    {
      var a := activities[i];
      assert activities[..i + 1] == activities[..i] + [a];
      FilterAppend(activities[..i], [a], HasSubscription);
      if a.subscription.Some? {
        records := records + [LegacyRecordOf(a)];
      }
    }
    assert activities[..|activities|] == activities;
    LegacyNoTimesIff(activities);
    if records != [] && NoTimes(records) {
      r := Failure(NoDatetimeColumn);
    } else {
      r := Success(records);
    }
  }

  /** No record of the table has a time. */
  predicate NoTimes(records: seq<LegacyRecord>) {
    forall k :: 0 <= k < |records| ==> records[k].createdAt.None?
  }

  /** The legacy table is non-empty without any time exactly when some
      activity has a subscription and none of those has a usable time. */
  lemma LegacyNoTimesIff(activities: seq<RawActivity>)
    ensures (LegacyRecords(activities) != [] && NoTimes(LegacyRecords(activities))) <==>
      && (exists i :: 0 <= i < |activities| && HasSubscription(activities[i]))
      && (forall i :: 0 <= i < |activities| && HasSubscription(activities[i]) ==> !HasTimestamp(activities[i]))
  {
    var records := LegacyRecords(activities);
    LegacyRecordsAreTheSubscribed(activities);
    if records != [] && NoTimes(records) {
      assert records[0] in records;
      forall i | 0 <= i < |activities| && HasSubscription(activities[i]) ensures !HasTimestamp(activities[i]) {
        assert activities[i] in activities;
        var k :| 0 <= k < |records| && records[k] == LegacyRecordOf(activities[i]);
      }
    } else {
      forall i | 0 <= i < |activities| && HasSubscription(activities[i]) ensures records != [] {
        assert activities[i] in activities;
      }
      if records != [] {
        var k :| 0 <= k < |records| && records[k].createdAt.Some?;
        assert records[k] in records;
      }
    }
  }

  /** A record exists exactly for each activity with a subscription. */
  lemma LegacyRecordsAreTheSubscribed(activities: seq<RawActivity>)
    ensures |LegacyRecords(activities)| == |Filter(activities, HasSubscription)|
    ensures forall a :: a in activities && a.subscription.Some? ==> LegacyRecordOf(a) in LegacyRecords(activities)
    ensures forall r :: r in LegacyRecords(activities) ==>
      exists a :: a in activities && a.subscription.Some? && r == LegacyRecordOf(a)
  {
    var kept := Filter(activities, HasSubscription);
    FilterMembers(activities, HasSubscription);
    var records := LegacyRecords(activities);
    forall a | a in activities && a.subscription.Some? ensures LegacyRecordOf(a) in records {
      var i :| 0 <= i < |kept| && kept[i] == a;
      assert records[i] == LegacyRecordOf(a);
    }
    forall r | r in records ensures exists a :: a in activities && a.subscription.Some? && r == LegacyRecordOf(a) {
      var i :| 0 <= i < |records| && records[i] == r;
      assert kept[i] in kept;
    }
  }

  /** Upgrades and downgrades both move MRR by the new value minus the
      previous one; without previous plan data the previous value is 0, so a
      downgrade then adds the whole new value. */
  lemma PlanChangesAreNetDifferences(a: RawActivity)
    requires a.subscription.Some? && a.activityType in {"upgrade", "downgrade"}
    ensures var r := LegacyRecordOf(a);
      && r.mrrImpactCents == r.monthlyValue - r.oldMonthlyValue
      && (PreviousPlan(a).None? ==> r.mrrImpactCents == r.monthlyValue && r.oldPlanPriceCents == 0)
  {
  }

  /** The other types move MRR by the plan's value with the sign of their
      category; renewals and unknown types are "Other" and move nothing. */
  lemma LegacyImpactByCategory(a: RawActivity)
    requires a.subscription.Some? && a.activityType !in {"upgrade", "downgrade"}
    ensures var r := LegacyRecordOf(a);
      && (r.category in {"New Members", "Reactivations"} ==> r.mrrImpactCents == r.monthlyValue)
      && (r.category in {"Cancellations", "Failed Payments"} ==> r.mrrImpactCents == -r.monthlyValue)
      && (r.category == "Other" ==> r.mrrImpactCents == 0.0)
      && r.category in {"New Members", "Reactivations", "Cancellations", "Failed Payments", "Other"}
      && r.oldMonthlyValue == 0.0
      && r.mrrImpactDollars * 100.0 == r.mrrImpactCents
  {
  }

  /** The legacy reconciliation labels. */
  const LegacyLabels: seq<string> := ["Starting MRR", "New Members", "Reactivations", "Upgrades",
    "Downgrades", "Cancellations", "Failed Payments", "Total MRR"]

  /** Every record that moves MRR lands in one of the six delta categories,
      so none of its impact is dropped by the reconciliation. */
  lemma LegacyImpactIsReconciled(a: RawActivity)
    requires a.subscription.Some?
    ensures var r := LegacyRecordOf(a);
      r.mrrImpactCents != 0.0 ==> exists c :: 1 <= c < 7 && LegacyLabels[c] == r.category
  {
    var r := LegacyRecordOf(a);
    if r.category == "New Members" { assert LegacyLabels[1] == r.category; }
    else if r.category == "Reactivations" { assert LegacyLabels[2] == r.category; }
    else if r.category == "Upgrades" { assert LegacyLabels[3] == r.category; }
    else if r.category == "Downgrades" { assert LegacyLabels[4] == r.category; }
    else if r.category == "Cancellations" { assert LegacyLabels[5] == r.category; }
    else if r.category == "Failed Payments" { assert LegacyLabels[6] == r.category; }
  }

  /** The columns the reconciliation reads of a legacy record. */
  function LegacyEntryOf(r: LegacyRecord): LedgerEntry {
    LedgerEntry(r.month, r.category, r.mrrImpactDollars)
  }

  /** The legacy `calculate_monthly_mrr_changes`: the same reconciliation
      with the capitalised labels and a starting MRR of 0. */
  method LegacyCalculateMonthlyMrrChanges(records: seq<LegacyRecord>, start: DateTime, end: Option<DateTime>, now: DateTime)
    returns (r: Result<seq<MrrRow>, ChangesError>)
    requires ValidDateTime(start) && ValidDateTime(end.GetOr(now)) && end.GetOr(now).date.year < 9999
    ensures records == [] ==> r == Success([])
    ensures records != [] ==> ChangesFor(r, LedgerOf(records, LegacyEntryOf), start, end.GetOr(now), LegacyLabels, 0.0)
  {
    r := MonthlyChanges(LedgerOf(records, LegacyEntryOf), start, end.GetOr(now), LegacyLabels, 0.0);
  }
}
