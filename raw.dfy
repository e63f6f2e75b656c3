/** The Memberful records the dashboard receives, as decoded JSON objects.
    A field that may be missing (or `null`) is an `Option`; a list field that
    may be missing is a sequence, empty when missing. Timestamps are Unix
    seconds; money is in cents. */
module Raw {
  import opened Base

  /** `plan` of a subscription (and of an activity's `previousData`). */
  datatype RawPlan = RawPlan(
    id: Option<string>,
    name: Option<string>,
    priceCents: Option<int>,
    intervalUnit: Option<string>,
    intervalCount: Option<int>)

  /** An element of a member's `subscriptions`. */
  datatype RawSubscription = RawSubscription(
    id: string,
    active: Option<bool>,
    autorenew: Option<bool>,
    createdAt: Option<int>,
    expiresAt: Option<int>,
    plan: Option<RawPlan>)

  datatype RawCoupon = RawCoupon(code: Option<string>)

  /** An element of a member's `orders`. */
  datatype RawOrder = RawOrder(
    totalCents: Option<int>,
    createdAt: Option<int>,
    status: Option<string>,
    coupon: Option<RawCoupon>)

  /** A member as returned by the members query. */
  datatype RawMember = RawMember(
    id: string,
    email: string,
    fullName: string,
    totalSpendCents: Option<int>,
    subscriptions: seq<RawSubscription>,
    orders: seq<RawOrder>)

  /** `member` of an activity. */
  datatype RawActivityMember = RawActivityMember(
    id: Option<string>,
    email: Option<string>,
    fullName: Option<string>)

  /** An element of an activity subscription's `orders`. */
  datatype RawActivityOrder = RawActivityOrder(coupon: Option<RawCoupon>)

  /** `subscription` of an activity; `None` in `RawActivity` stands for a
      missing, `null` or empty object. */
  datatype RawActivitySubscription = RawActivitySubscription(
    id: string,
    plan: Option<RawPlan>,
    orders: seq<RawActivityOrder>)

  /** `previousData` of an activity; `plan` is `None` when it has no plan. */
  datatype RawPreviousData = RawPreviousData(plan: Option<RawPlan>)

  /** An activity as returned by the activities query. */
  datatype RawActivity = RawActivity(
    id: Option<string>,
    activityType: string,
    createdAt: Option<int>,
    member: Option<RawActivityMember>,
    subscription: Option<RawActivitySubscription>,
    previousData: Option<RawPreviousData>)

  /** The activity has a usable time: `created_at` is present and not 0, the
      two cases in which `if created_at` records no time. */
  predicate HasTimestamp(a: RawActivity) {
    a.createdAt.Some? && a.createdAt.value != 0
  }
}
