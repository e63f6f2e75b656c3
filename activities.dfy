/** The activity feed turned into MRR movements (`src/data/activities.py`):
    every activity is classified into a category with an MRR impact, and the
    monthly reconciliation sums the impacts per month and category and chains
    the months from a fixed starting MRR. */
module Activities {
  import opened Base
  import opened Strings
  import opened Calendar
  import opened Raw
  import opened Tables
  import opened Members
  import opened Reconciliation

  /** The suffixes the email check accepts. */
  const EducationSuffixes: seq<string> := [".edu", "@meca.edu", "@maine.edu", "@usm.maine.edu", "@mcad.edu"]

  /** `s.endswith(tuple)` */
  predicate EndsWithAny(s: string, suffixes: seq<string>) {
    exists k :: 0 <= k < |suffixes| && EndsWith(s, suffixes[k])
  }

  /** The email fallback: a non-empty email whose lower-cased form ends with
      one of the education suffixes. */
  predicate EmailIsEducation(email: Option<string>) {
    email.Some? && email.value != [] && EndsWithAny(Lower(email.value), EducationSuffixes)
  }

  /** Every listed suffix ends with ".edu", so the check is the ".edu" test
      alone. */
  lemma EducationEmailIff(email: string)
    ensures EmailIsEducation(Some(email)) <==> email != [] && EndsWith(Lower(email), ".edu")
  {
    var s := Lower(email);
    assert EducationSuffixes[0] == ".edu";
    forall k | 0 <= k < |EducationSuffixes| && EndsWith(s, EducationSuffixes[k])
      ensures EndsWith(s, ".edu")
    {
      var suffix := EducationSuffixes[k];
      assert EndsWith(suffix, ".edu") by {
        assert suffix[|suffix| - 4..] == ".edu";
      }
      EndsWithTransitive(s, suffix, ".edu");
    }
  }

  /** A coupon that makes its order an education order: a non-empty code
      containing "education" in any case. */
  predicate IsEducationCoupon(c: Option<RawCoupon>) {
    c.Some? && c.value.code.Some? && c.value.code.value != [] && Contains(Lower(c.value.code.value), "education")
  }

  predicate HasEducationCoupon(orders: seq<RawActivityOrder>) {
    exists k :: 0 <= k < |orders| && IsEducationCoupon(orders[k].coupon)
  }

  /** The education flag of an activity: its member's email or any of its
      subscription's order coupons. */
  predicate IsEducationActivity(a: RawActivity) {
    || EmailIsEducation(MemberOf(a).email)
    || (a.subscription.Some? && HasEducationCoupon(a.subscription.value.orders))
  }

  /** The member of an activity; a missing member reads as an empty object. */
  function MemberOf(a: RawActivity): RawActivityMember {
    a.member.GetOr(RawActivityMember(None, None, None))
  }

  /** The monthly value in cents: price times 0.25 for a weekly plan, 1/12 for
      a yearly one and 1 for anything else, divided by the interval count (0
      read as 1). */
  function ActivityMonthlyValue(priceCents: int, unit: string, count: int): (v: real)
    ensures priceCents >= 0 && count >= 0 ==> v >= 0.0
    ensures count == 0 || count == 1 ==>
      && (unit == "week" ==> 4.0 * v == priceCents as real)
      && (unit == "year" ==> 12.0 * v == priceCents as real)
      && (unit != "week" && unit != "year" ==> v == priceCents as real)
  {
    var multiplier := if unit == "week" then 0.25 else if unit == "year" then 1.0 / 12.0 else 1.0;
    var c := if count == 0 then 1 else count;
    priceCents as real * multiplier / c as real
  }

  /** Compared with the MRR snapshot of the members table, the activity
      value agrees on monthly and yearly plans, is a sixteenth of it on weekly
      plans (it multiplies by 0.25 where the snapshot divides), and is still
      defined on units the snapshot rejects. */
  lemma ActivityValueAgainstSnapshot(priceCents: int, unit: string, count: int)
    ensures unit == "month" || unit == "year" ==>
      SnapshotMonthlyValue(priceCents, unit, count) == Some(ActivityMonthlyValue(priceCents, unit, count))
    ensures unit == "week" ==>
      SnapshotMonthlyValue(priceCents, unit, count) == Some(16.0 * ActivityMonthlyValue(priceCents, unit, count))
    ensures unit !in {"month", "week", "year"} ==>
      SnapshotMonthlyValue(priceCents, unit, count).None? &&
      ActivityMonthlyValue(priceCents, unit, count) == ActivityMonthlyValue(priceCents, "month", count)
  {
    var p := priceCents as real;
    var c := (if count == 0 then 1 else count) as real;
    assert p / 0.25 / c == 16.0 * (p * 0.25 / c);
    assert p / 12.0 / c == p * (1.0 / 12.0) / c;
    assert p / 1.0 / c == p * 1.0 / c;
  }

  /** A category and the MRR impact in cents that goes with it. */
  datatype Classified = Classified(category: string, impact: real)

  /** The category of an education activity; its impact is always 0. */
  function EducationCategory(t: string): string {
    if t == "new_subscription" || t == "new_order" then "Education members"
    else if t == "renewal" then "Education renewals"
    else if t == "subscription_deactivated" then "Education cancellations"
    else "Education changes"
  }

  /** The category and impact of a paying activity on a plan worth `v` a month. */
  function PaidCategory(t: string, v: real): (k: Classified)
    ensures k.category in {"New members", "Reactivations", "Upgrades", "Downgrades", "Cancellations",
      "Failed payments", "Renewals", "Other"}
    ensures k.category in {"Renewals", "Other"} ==> k.impact == 0.0
    ensures k.category in {"Downgrades", "Cancellations", "Failed payments"} ==> k.impact == -v
    ensures k.category in {"New members", "Reactivations", "Upgrades"} ==> k.impact == v
  {
    if t == "new_subscription" || t == "new_order" then Classified("New members", v)
    else if t == "subscription_reactivated" then Classified("Reactivations", v)
    else if t == "upgrade" then Classified("Upgrades", v)
    else if t == "downgrade" then Classified("Downgrades", -v)
    else if t == "subscription_deleted" || t == "subscription_deactivated" then Classified("Cancellations", -v)
    else if t == "renewal_payment_failed" || Contains(t, "renewal_failed") || Contains(t, "payment_failed") then
      Classified("Failed payments", -v)
    else if t == "renewal" then Classified("Renewals", 0.0)
    else Classified("Other", 0.0)
  }

  /** A type the failed-payment branch catches. */
  predicate FailedPaymentType(t: string) {
    t == "renewal_payment_failed" || Contains(t, "renewal_failed") || Contains(t, "payment_failed")
  }

  /** The exact types tested before the failed-payment branch. */
  predicate ExactPaidType(t: string) {
    t == "new_subscription" || t == "new_order" || t == "subscription_reactivated" || t == "upgrade"
      || t == "downgrade" || t == "subscription_deleted" || t == "subscription_deactivated"
  }

  /** Which type lands in which paid category, branch by branch in the order
      the type is tested, and the impact that goes with it. */
  lemma PaidCategoryByType(t: string, v: real)
    ensures var k := PaidCategory(t, v);
      && (k.category == "New members" <==> t == "new_subscription" || t == "new_order")
      && (k.category == "Reactivations" <==> t == "subscription_reactivated")
      && (k.category == "Upgrades" <==> t == "upgrade")
      && (k.category == "Downgrades" <==> t == "downgrade")
      && (k.category == "Cancellations" <==> t == "subscription_deleted" || t == "subscription_deactivated")
      && (k.category == "Failed payments" <==> !ExactPaidType(t) && FailedPaymentType(t))
      && (k.category == "Renewals" <==> t == "renewal")
      && (k.category == "Other" <==> !ExactPaidType(t) && !FailedPaymentType(t) && t != "renewal")
  {
    if t == "renewal" {
      if Contains(t, "renewal_failed") { ContainsFits(t, "renewal_failed"); }
      if Contains(t, "payment_failed") { ContainsFits(t, "payment_failed"); }
    }
  }

  /** The category of an activity without a subscription. */
  function UnsubscribedCategory(t: string): string {
    if t == "free_signup" then "Free signups"
    else if Contains(t, "team_member") then "Team member changes"
    else if Contains(t, "auto_renew") then "Subscription changes"
    else "Other"
  }

  /** The plan columns a record gets when its activity has a subscription. */
  datatype PlanColumns = PlanColumns(
    name: Option<string>,
    priceCents: Option<int>,
    intervalUnit: Option<string>,
    intervalCount: int,
    monthlyValue: real)

  /** A row of the processed activities table. `createdAt` is `None` for a
      missing or zero timestamp, and so is `month`. */
  datatype ActivityRecord = ActivityRecord(
    id: Option<string>,
    activityType: string,
    category: string,
    createdAt: Option<int>,
    memberId: Option<string>,
    memberName: Option<string>,
    memberEmail: Option<string>,
    subscriptionId: Option<string>,
    isEducation: bool,
    mrrImpactCents: real,
    mrrImpactDollars: real,
    plan: Option<PlanColumns>,
    month: Option<YearMonth>)

  /** The record of activity `a` given its education flag. */
  function RecordOf(a: RawActivity, isEducation: bool): (r: ActivityRecord)
    ensures r.id == a.id && r.activityType == a.activityType && r.isEducation == isEducation
    ensures r.subscriptionId.Some? <==> a.subscription.Some?
    ensures r.plan.Some? <==> a.subscription.Some?
    ensures r.createdAt.Some? ==> r.createdAt == a.createdAt && r.createdAt.value != 0
    ensures r.createdAt.Some? <==> HasTimestamp(a)
    ensures r.month.Some? <==> r.createdAt.Some?
    ensures isEducation ==> r.mrrImpactCents == 0.0
  {
    var member := MemberOf(a);
    var createdAt := if a.createdAt.None? || a.createdAt == Some(0) then None else a.createdAt;
    var month := if createdAt.Some? then Some(MonthOf(createdAt.value)) else None;
    var t := a.activityType;
    match a.subscription
    case None =>
      ActivityRecord(a.id, t, UnsubscribedCategory(t), createdAt, member.id, member.fullName, member.email,
        None, isEducation, 0.0, 0.0, None, month)
    case Some(sub) =>
      var plan := sub.plan.GetOr(RawPlan(None, None, None, None, None));
      var count := plan.intervalCount.GetOr(1);
      var c :=
        if plan.priceCents.Some? && plan.intervalUnit.Some? then
          var v := ActivityMonthlyValue(plan.priceCents.value, plan.intervalUnit.value, count);
          var k := if isEducation then Classified(EducationCategory(t), 0.0) else PaidCategory(t, v);
          (k, v)
        else (Classified("Other", 0.0), 0.0);
      ActivityRecord(a.id, t, c.0.category, createdAt, member.id, member.fullName, member.email,
        Some(sub.id), isEducation, c.0.impact, c.0.impact / 100.0,
        Some(PlanColumns(plan.name, plan.priceCents, plan.intervalUnit, count, c.1)), month)
  }

  /** The record `process_subscription_activities` builds for `a`. */
  function NormalizeActivity(a: RawActivity): (r: ActivityRecord)
    ensures r.isEducation == IsEducationActivity(a)
    ensures r.isEducation ==> r.mrrImpactCents == 0.0
    ensures r.subscriptionId.Some? <==> a.subscription.Some?
  {
    RecordOf(a, IsEducationActivity(a))
  }

  /** One record per activity, in order: the email check, then the search of
      the subscription's orders for an education coupon (stopping at the
      first), then the classification. Adding the month column fails when
      the table is not empty and no activity has a usable time. */
  method ProcessSubscriptionActivities(activities: seq<RawActivity>) returns (r: Result<seq<ActivityRecord>, FrameError>)
    ensures r.Success? <==> activities == [] || exists i :: 0 <= i < |activities| && HasTimestamp(activities[i])
    ensures r.Success? ==> |r.value| == |activities|
    ensures r.Success? ==> forall i :: 0 <= i < |activities| ==> r.value[i] == NormalizeActivity(activities[i])
  {
    var records := [];
    for i := 0 to |activities|
      invariant |records| == i
      invariant forall k :: 0 <= k < i ==> records[k] == NormalizeActivity(activities[k])
    {
      var a := activities[i];
      var isEducation := EmailIsEducation(MemberOf(a).email);
      if a.subscription.Some? {
        var orders := a.subscription.value.orders;
        var j := 0;
        while j < |orders|
          invariant 0 <= j <= |orders|
          invariant forall k :: 0 <= k < j ==> !IsEducationCoupon(orders[k].coupon)
          invariant isEducation == EmailIsEducation(MemberOf(a).email)
        {
          if IsEducationCoupon(orders[j].coupon) {
            isEducation := true;
            break;
          }
          j := j + 1;
        }
      }
      records := records + [RecordOf(a, isEducation)];
    }
    if records != [] && forall k | 0 <= k < |records| :: records[k].createdAt.None? {
      assert forall k | 0 <= k < |activities| :: !HasTimestamp(activities[k]);
      r := Failure(NoDatetimeColumn);
    } else {
      assert records == [] ==> activities == [];
      r := Success(records);
    }
  }

  /** +1 for the categories that add MRR, -1 for those that remove it, 0 for
      the rest. */
  function CategorySign(category: string): real {
    if category in {"New members", "Reactivations", "Upgrades"} then 1.0
    else if category in {"Downgrades", "Cancellations", "Failed payments"} then -1.0
    else 0.0
  }

  function MonthlyValueOf(r: ActivityRecord): real {
    if r.plan.Some? then r.plan.value.monthlyValue else 0.0
  }

  /** Every record's impact is its category's sign times its monthly value,
      and its dollars are its cents over 100. */
  lemma ImpactFollowsCategory(a: RawActivity)
    ensures var r := NormalizeActivity(a);
      && r.mrrImpactCents == CategorySign(r.category) * MonthlyValueOf(r)
      && r.mrrImpactDollars * 100.0 == r.mrrImpactCents
  {
    RecordImpactFollowsCategory(a, IsEducationActivity(a));
  }

  lemma RecordImpactFollowsCategory(a: RawActivity, isEducation: bool)
    ensures var r := RecordOf(a, isEducation);
      && r.mrrImpactCents == CategorySign(r.category) * MonthlyValueOf(r)
      && r.mrrImpactDollars * 100.0 == r.mrrImpactCents
  {
    var t := a.activityType;
    if a.subscription.None? {
      UnsubscribedHasNoSign(t);
    } else {
      var plan := a.subscription.value.plan.GetOr(RawPlan(None, None, None, None, None));
      var r := RecordOf(a, isEducation);
      if plan.priceCents.Some? && plan.intervalUnit.Some? {
        var v := ActivityMonthlyValue(plan.priceCents.value, plan.intervalUnit.value, plan.intervalCount.GetOr(1));
        var k := if isEducation then Classified(EducationCategory(t), 0.0) else PaidCategory(t, v);
        assert r.category == k.category && r.mrrImpactCents == k.impact && MonthlyValueOf(r) == v;
        EducationHasNoSign(t);
        PaidImpactHasSign(t, v);
      } else {
        assert r.category == "Other" && r.mrrImpactCents == 0.0;
      }
    }
  }

  lemma PaidImpactHasSign(t: string, v: real)
    ensures PaidCategory(t, v).impact == CategorySign(PaidCategory(t, v).category) * v
  {
  }

  lemma EducationHasNoSign(t: string)
    ensures CategorySign(EducationCategory(t)) == 0.0 && CategorySign("Other") == 0.0
  {
  }

  lemma UnsubscribedHasNoSign(t: string)
    ensures CategorySign(UnsubscribedCategory(t)) == 0.0
  {
  }

  /** Education activities never move MRR; when their plan is priced they
      fall into one of the four education categories. */
  lemma EducationActivitiesAreNeutral(a: RawActivity)
    requires IsEducationActivity(a)
    ensures var r := NormalizeActivity(a);
      && r.isEducation && r.mrrImpactCents == 0.0 && r.mrrImpactDollars == 0.0
      && (r.plan.Some? && r.plan.value.priceCents.Some? && r.plan.value.intervalUnit.Some? ==>
           r.category in {"Education members", "Education renewals", "Education cancellations", "Education changes"})
  {
  }

  /** An activity without a subscription has no impact, no subscription id,
      no plan columns and one of four categories. */
  lemma UnsubscribedActivities(a: RawActivity)
    requires a.subscription.None?
    ensures var r := NormalizeActivity(a);
      && r.mrrImpactCents == 0.0 && r.subscriptionId.None? && r.plan.None?
      && r.category in {"Free signups", "Team member changes", "Subscription changes", "Other"}
      && (r.category == "Free signups" <==> a.activityType == "free_signup")
  {
  }

  /** A priced activity of a paying member whose type mentions a failed
      payment, and that is no earlier type, is a failed payment that removes
      its monthly value. */
  lemma FailedPaymentsCatchAll(a: RawActivity)
    requires !IsEducationActivity(a) && a.subscription.Some?
    requires var plan := a.subscription.value.plan;
      plan.Some? && plan.value.priceCents.Some? && plan.value.intervalUnit.Some?
    requires a.activityType !in {"new_subscription", "new_order", "subscription_reactivated", "upgrade",
      "downgrade", "subscription_deleted", "subscription_deactivated"}
    requires Contains(a.activityType, "payment_failed") || Contains(a.activityType, "renewal_failed")
    ensures var r := NormalizeActivity(a);
      r.category == "Failed payments" && r.mrrImpactCents == -MonthlyValueOf(r)
  {
  }

  /** The labels of the reconciliation, Starting and Total around the six
      delta categories. */
  const ActivityLabels: seq<string> := ["Starting MRR", "New members", "Reactivations", "Upgrades",
    "Downgrades", "Cancellations", "Failed payments", "Total MRR"]

  /** The fixed MRR the first month starts from, in dollars. */
  const InitialMrr: real := 487.71

  /** The columns the reconciliation reads. */
  function EntryOf(r: ActivityRecord): LedgerEntry {
    LedgerEntry(r.month, r.category, r.mrrImpactDollars)
  }

  function Ledger(records: seq<ActivityRecord>): (l: seq<LedgerEntry>)
    ensures |l| == |records|
    ensures forall i :: 0 <= i < |records| ==>
      l[i] == LedgerEntry(records[i].month, records[i].category, records[i].mrrImpactDollars)
  {
    LedgerOf(records, EntryOf)
  }

  /** `calculate_monthly_mrr_changes(activities_df, start_date, end_date)`,
      with `end_date` defaulting to `now`. */
  method CalculateMonthlyMrrChanges(records: seq<ActivityRecord>, start: DateTime, end: Option<DateTime>, now: DateTime)
    returns (r: Result<seq<MrrRow>, ChangesError>)
    requires ValidDateTime(start) && ValidDateTime(end.GetOr(now)) && end.GetOr(now).date.year < 9999
    ensures records == [] ==> r == Success([])
    ensures records != [] ==> ChangesFor(r, Ledger(records), start, end.GetOr(now), ActivityLabels, InitialMrr)
  {
    r := MonthlyChanges(Ledger(records), start, end.GetOr(now), ActivityLabels, InitialMrr);
  }
}
