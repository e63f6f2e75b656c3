/** The education-member rule of the members view: a member is an education
    member when their most recent order was free and used the "Education"
    coupon. */
module MemberUtils {
  import opened Base
  import opened Raw

  /** `o.get("createdAt", 0)` */
  function OrderTime(o: RawOrder): int {
    o.createdAt.GetOr(0)
  }

  /** `k` is where a stable newest-first sort puts the first order: the
      earliest position holding the greatest creation time. */
  predicate IsLatest(orders: seq<RawOrder>, k: int) {
    && 0 <= k < |orders|
    && (forall j :: 0 <= j < |orders| ==> OrderTime(orders[j]) <= OrderTime(orders[k]))
    && (forall j :: 0 <= j < k ==> OrderTime(orders[j]) < OrderTime(orders[k]))
  }

  /** The position of `sorted(orders, key=createdAt, reverse=True)[0]`. */
  function LatestIndex(orders: seq<RawOrder>): (k: int)
    requires orders != []
    ensures IsLatest(orders, k)
  {
    if |orders| == 1 then 0
    else
      var k := LatestIndex(orders[..|orders| - 1]);
      if OrderTime(orders[|orders| - 1]) > OrderTime(orders[k]) then |orders| - 1 else k
  }

  /** At most one position is the latest. */
  lemma LatestUnique(orders: seq<RawOrder>, k: int, k': int)
    requires IsLatest(orders, k) && IsLatest(orders, k')
    ensures k == k'
  {
    assert OrderTime(orders[k]) == OrderTime(orders[k']);
  }

  /** `totalCents` (missing = 0) is 0 and the coupon's code is exactly "Education";
      an empty coupon object is falsy and so gives false, as a missing one does. */
  predicate IsFreeEducationOrder(o: RawOrder) {
    o.totalCents.GetOr(0) == 0 && o.coupon.Some? && o.coupon.value.code == Some("Education")
  }

  /** `is_education_member(member)` */
  predicate IsEducationMember(m: RawMember)
    ensures IsEducationMember(m) ==> exists k :: 0 <= k < |m.orders| && IsFreeEducationOrder(m.orders[k])
  {
    m.orders != [] && IsFreeEducationOrder(m.orders[LatestIndex(m.orders)])
  }

  /** The rule restated without `LatestIndex`: a member is an education member
      exactly when some latest order is a free Education order. */
  lemma EducationMemberIff(m: RawMember)
    ensures IsEducationMember(m) <==>
      exists k :: IsLatest(m.orders, k) && IsFreeEducationOrder(m.orders[k])
  {
    if m.orders != [] {
      var k := LatestIndex(m.orders);
      forall k' | IsLatest(m.orders, k') ensures k' == k {
        LatestUnique(m.orders, k, k');
      }
    }
  }

  /** A member without orders is never an education member. */
  lemma NoOrdersNotEducation(m: RawMember)
    requires m.orders == []
    ensures !IsEducationMember(m)
  {
  }

  /** A latest order that cost something, or that has no coupon, rules the
      member out. */
  lemma PaidOrCouponlessLatestNotEducation(m: RawMember)
    requires m.orders != []
    requires var o := m.orders[LatestIndex(m.orders)];
      o.totalCents.GetOr(0) != 0 || o.coupon.None? || o.coupon.value.code != Some("Education")
    ensures !IsEducationMember(m)
  {
  }

  /** Inserting an order older than the latest one, anywhere in the list,
      does not change the classification: older orders never matter. */
  lemma OlderOrderIrrelevant(m: RawMember, p: int, o: RawOrder)
    requires 0 <= p <= |m.orders| && m.orders != []
    requires OrderTime(o) < OrderTime(m.orders[LatestIndex(m.orders)])
    ensures IsEducationMember(m.(orders := m.orders[..p] + [o] + m.orders[p..])) == IsEducationMember(m)
  {
    var orders := m.orders;
    var orders' := orders[..p] + [o] + orders[p..];
    var k := LatestIndex(orders);
    var k' := if k < p then k else k + 1;
    assert orders'[k'] == orders[k];
    forall j | 0 <= j < |orders'| ensures OrderTime(orders'[j]) <= OrderTime(orders'[k']) {
      if j < p { assert orders'[j] == orders[j]; }
      else if j > p { assert orders'[j] == orders[j - 1]; }
    }
    forall j | 0 <= j < k' ensures OrderTime(orders'[j]) < OrderTime(orders'[k']) {
      if j < p { assert orders'[j] == orders[j]; }
      else if j > p { assert orders'[j] == orders[j - 1]; }
    }
    assert IsLatest(orders', k');
    LatestUnique(orders', k', LatestIndex(orders'));
  }
}
