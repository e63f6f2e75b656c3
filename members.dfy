/** The members side of the dashboard: raw members flattened into a member
    table and a subscription table, and the figures computed from them
    (monthly recurring revenue and member counts, the all-members view, new
    subscriptions and the value of recent orders). */
module Members {
  import opened Base
  import opened Raw
  import opened Tables
  import opened MemberUtils

  /** A row of the members table. */
  datatype MemberRow = MemberRow(
    id: string,
    email: string,
    name: string,
    totalSpendCents: int,
    isEducation: bool)

  /** A row of the subscriptions table; times are Unix seconds or `NaT`. */
  datatype SubscriptionRow = SubscriptionRow(
    subscriptionId: string,
    memberId: string,
    memberName: string,
    memberEmail: string,
    active: bool,
    autoRenew: bool,
    plan: string,
    priceCents: int,
    intervalUnit: string,
    intervalCount: int,
    createdAt: Option<int>,
    expiresAt: Option<int>,
    isEducation: bool)

  function MemberRowOf(m: RawMember): MemberRow {
    MemberRow(m.id, m.email, m.fullName, m.totalSpendCents.GetOr(0), IsEducationMember(m))
  }

  /** The plan of a subscription, an empty object when it has none. */
  function PlanOf(s: RawSubscription): RawPlan {
    s.plan.GetOr(RawPlan(None, None, None, None, None))
  }

  /** The row for subscription `s` of member `m`, with the defaults the
      flattening applies to missing fields. */
  function SubscriptionRowOf(m: RawMember, s: RawSubscription, isEducation: bool): SubscriptionRow {
    var plan := PlanOf(s);
    SubscriptionRow(
      s.id, m.id, m.fullName, m.email,
      s.active.GetOr(false), s.autorenew.GetOr(false),
      plan.name.GetOr("Unknown"), plan.priceCents.GetOr(0),
      plan.intervalUnit.GetOr(""), plan.intervalCount.GetOr(1),
      s.createdAt, s.expiresAt, isEducation)
  }

  /** The rows of one member, one per subscription, in order. */
  function RowsOfMember(m: RawMember): (r: seq<SubscriptionRow>)
    ensures |r| == |m.subscriptions|
  {
    seq(|m.subscriptions|, j requires 0 <= j < |m.subscriptions| =>
      SubscriptionRowOf(m, m.subscriptions[j], IsEducationMember(m)))
  }

  /** The number of subscriptions of a list of members. */
  function SubscriptionCount(ms: seq<RawMember>): nat {
    if ms == [] then 0 else SubscriptionCount(ms[..|ms| - 1]) + |ms[|ms| - 1].subscriptions|
  }

  /** The subscriptions table of a list of members: one row per subscription. */
  function SubscriptionRows(ms: seq<RawMember>): (r: seq<SubscriptionRow>)
    ensures |r| == SubscriptionCount(ms)
  {
    if ms == [] then [] else SubscriptionRows(ms[..|ms| - 1]) + RowsOfMember(ms[|ms| - 1])
  }

  /** `process_members_data`: one member row per raw member and one
      subscription row per nested subscription, both in input order. */
  method ProcessMembersData(members: seq<RawMember>) returns (memberRows: seq<MemberRow>, subRows: seq<SubscriptionRow>)
    ensures |memberRows| == |members|
    ensures forall i :: 0 <= i < |members| ==> memberRows[i] == MemberRowOf(members[i])
    ensures subRows == SubscriptionRows(members)
  {
    memberRows := seq(|members|, i requires 0 <= i < |members| => MemberRowOf(members[i]));
    subRows := [];
    for i := 0 to |members|
      invariant subRows == SubscriptionRows(members[..i])
    {
      var m := members[i];
      var isEdu := IsEducationMember(m);
      for j := 0 to |m.subscriptions|
        invariant subRows == SubscriptionRows(members[..i]) + RowsOfMember(m)[..j]
      {
        subRows := subRows + [SubscriptionRowOf(m, m.subscriptions[j], isEdu)];
        assert RowsOfMember(m)[..j + 1] == RowsOfMember(m)[..j] + [RowsOfMember(m)[j]];
      }
      assert RowsOfMember(m)[..|m.subscriptions|] == RowsOfMember(m);
      assert members[..i + 1][..i] == members[..i];
    }
    assert members[..|members|] == members;
  }

  /** Flattening distributes over concatenation of member lists. */
  lemma {:induction false} SubscriptionRowsAppend(a: seq<RawMember>, b: seq<RawMember>)
    ensures SubscriptionRows(a + b) == SubscriptionRows(a) + SubscriptionRows(b)
    decreases |b|
  {
    if b == [] {
      assert a + b == a;
    } else {
      var c := a + b;
      var front := b[..|b| - 1];
      assert c[..|c| - 1] == a + front && c[|c| - 1] == b[|b| - 1];
      assert SubscriptionRows(c) == SubscriptionRows(a + front) + RowsOfMember(b[|b| - 1]);
      SubscriptionRowsAppend(a, front);
      assert SubscriptionRows(b) == SubscriptionRows(front) + RowsOfMember(b[|b| - 1]);
    }
  }

  /** Subscription `j` of member `i` sits right after the rows of the members
      before `i`, and carries its owner's id, name, email and education flag. */
  lemma SubscriptionRowOwner(ms: seq<RawMember>, i: int, j: int)
    requires 0 <= i < |ms| && 0 <= j < |ms[i].subscriptions|
    ensures var k := SubscriptionCount(ms[..i]) + j;
      && k < |SubscriptionRows(ms)|
      && SubscriptionRows(ms)[k] == SubscriptionRowOf(ms[i], ms[i].subscriptions[j], IsEducationMember(ms[i]))
      && SubscriptionRows(ms)[k].memberId == ms[i].id
      && SubscriptionRows(ms)[k].memberName == ms[i].fullName
      && SubscriptionRows(ms)[k].memberEmail == ms[i].email
      && SubscriptionRows(ms)[k].isEducation == IsEducationMember(ms[i])
      && SubscriptionRows(ms)[k].subscriptionId == ms[i].subscriptions[j].id
  {
    SubscriptionRowsAround(ms, i);
    var k := SubscriptionCount(ms[..i]) + j;
    assert SubscriptionRows(ms)[k] == RowsOfMember(ms[i])[j];
  }

  /** A single member's table is its own rows. */
  lemma SubscriptionRowsOfOne(x: RawMember)
    ensures SubscriptionRows([x]) == RowsOfMember(x)
  {
    assert [x][..0] == [];
  }

  /** The table is the rows of the members before `i`, then member `i`'s,
      then the rest's. */
  lemma SubscriptionRowsAround(ms: seq<RawMember>, i: int)
    requires 0 <= i < |ms|
    ensures SubscriptionRows(ms) == SubscriptionRows(ms[..i]) + RowsOfMember(ms[i]) + SubscriptionRows(ms[i + 1..])
  {
    var before, one, after := ms[..i], [ms[i]], ms[i + 1..];
    var rest := one + after;
    assert ms == before + rest;
    SubscriptionRowsAppend(before, rest);
    SubscriptionRowsAppend(one, after);
    var a, m, b := SubscriptionRows(before), SubscriptionRows(one), SubscriptionRows(after);
    SubscriptionRowsOfOne(ms[i]);
    assert a + (m + b) == a + m + b;
  }

  /** Field by field, a missing subscription or plan field takes its default
      and a present one is copied; a missing plan is an empty one, so all of
      its fields take their defaults. */
  lemma FlattenDefaults(m: RawMember, s: RawSubscription, e: bool)
    ensures var r := SubscriptionRowOf(m, s, e);
      && r.subscriptionId == s.id && r.memberId == m.id && r.isEducation == e
      && r.active == (s.active.Some? && s.active.value)
      && r.autoRenew == (s.autorenew.Some? && s.autorenew.value)
      && r.createdAt == s.createdAt && r.expiresAt == s.expiresAt
    ensures var r, p := SubscriptionRowOf(m, s, e), PlanOf(s);
      && (p.name.None? ==> r.plan == "Unknown") && (p.name.Some? ==> r.plan == p.name.value)
      && (p.priceCents.None? ==> r.priceCents == 0) && (p.priceCents.Some? ==> r.priceCents == p.priceCents.value)
      && (p.intervalUnit.None? ==> r.intervalUnit == "") && (p.intervalUnit.Some? ==> r.intervalUnit == p.intervalUnit.value)
      && (p.intervalCount.None? ==> r.intervalCount == 1) && (p.intervalCount.Some? ==> r.intervalCount == p.intervalCount.value)
    ensures s.plan.None? ==>
      (PlanOf(s).name.None? && PlanOf(s).priceCents.None? && PlanOf(s).intervalUnit.None? && PlanOf(s).intervalCount.None?)
    ensures s.plan.Some? ==> PlanOf(s) == s.plan.value
  {
  }

  // ---------------------------------------------------------------------
  // calculate_mrr

  /** The monthly value (cents) of `calculate_mrr`: the price divided by 1, 0.25
      or 12 for a month, week or year and by the interval count (0 counts as
      1). Any other unit divides by zero, which aborts the computation. */
  function SnapshotMonthlyValue(priceCents: int, unit: string, count: int): (r: Option<real>)
    ensures r.Some? <==> unit in {"month", "week", "year"}
  {
    var c := if count == 0 then 1 else count;
    if unit == "month" then Some(priceCents as real / 1.0 / c as real)
    else if unit == "week" then Some(priceCents as real / 0.25 / c as real)
    else if unit == "year" then Some(priceCents as real / 12.0 / c as real)
    else None
  }

  /** A weekly price counts four times a month, a yearly one a twelfth of
      itself, a monthly one itself; the count divides all three. */
  lemma SnapshotMonthlyValueScale(priceCents: int, count: int)
    requires count != 0
    ensures SnapshotMonthlyValue(priceCents, "month", count) == Some(priceCents as real / count as real)
    ensures SnapshotMonthlyValue(priceCents, "week", count) == Some(4.0 * priceCents as real / count as real)
    ensures SnapshotMonthlyValue(priceCents, "year", count) == Some(priceCents as real / (12.0 * count as real))
    ensures SnapshotMonthlyValue(priceCents, "month", 0) == SnapshotMonthlyValue(priceCents, "month", 1)
  {
    var p := priceCents as real;
    var c := count as real;
    assert p / 0.25 == 4.0 * p;
    assert p / 12.0 / c == p / (12.0 * c);
  }

  predicate UnknownUnit(r: SubscriptionRow) {
    SnapshotMonthlyValue(r.priceCents, r.intervalUnit, r.intervalCount).None?
  }

  datatype MrrError = UnknownIntervalUnit(subscriptionId: string, unit: string)

  /** A subscription row together with its `monthly_value` column. */
  datatype PricedRow = PricedRow(row: SubscriptionRow, monthlyValue: real)

  /** The `monthly_value` column, or the error for the first row whose
      interval unit is not a month, week or year. */
  function MonthlyValues(rows: seq<SubscriptionRow>): (r: Result<seq<real>, MrrError>)
    ensures r.Success? ==> |r.value| == |rows|
    ensures r.Success? ==> forall i :: 0 <= i < |rows| ==>
      SnapshotMonthlyValue(rows[i].priceCents, rows[i].intervalUnit, rows[i].intervalCount) == Some(r.value[i])
    ensures r.Failure? <==> exists i :: 0 <= i < |rows| && UnknownUnit(rows[i])
  {
    if rows == [] then Success([])
    else
      var x := rows[0];
      match SnapshotMonthlyValue(x.priceCents, x.intervalUnit, x.intervalCount)
      case None => Failure(UnknownIntervalUnit(x.subscriptionId, x.intervalUnit))
      case Some(v) =>
        match MonthlyValues(rows[1..])
        case Failure(e) =>
          assert forall i :: 0 < i < |rows| ==> rows[i] == rows[1..][i - 1];
          Failure(e)
        case Success(vs) =>
          assert forall i :: 0 < i < |rows| ==> rows[i] == rows[1..][i - 1];
          Success([v] + vs)
  }

  function Priced(rows: seq<SubscriptionRow>, values: seq<real>): (r: seq<PricedRow>)
    requires |values| == |rows|
    ensures |r| == |rows| && forall i :: 0 <= i < |rows| ==> r[i] == PricedRow(rows[i], values[i])
  {
    seq(|rows|, i requires 0 <= i < |rows| => PricedRow(rows[i], values[i]))
  }

  predicate IsPaying(p: PricedRow) { p.row.active && !p.row.isEducation }
  predicate IsActive(p: PricedRow) { p.row.active }
  predicate IsActiveEducation(p: PricedRow) { p.row.active && p.row.isEducation }
  function SubscriptionKey(p: PricedRow): string { p.row.subscriptionId }
  function MemberKey(p: PricedRow): string { p.row.memberId }
  function PlanKey(p: PricedRow): string { p.row.plan }
  function Value(p: PricedRow): real { p.monthlyValue }

  /** The four figures `calculate_mrr` returns. */
  datatype MrrSummary = MrrSummary(mrrDollars: real, payingCount: nat, activeCount: nat, educationCount: nat)

  /** The active non-education rows, one per subscription: the paying subscriptions. */
  function PayingSubscriptions(priced: seq<PricedRow>): seq<PricedRow> {
    DedupBy(Filter(priced, IsPaying), SubscriptionKey)
  }

  /** The summary of a priced table: no more education members than active
      members, and no more paying subscriptions or active members than rows. */
  function Summarize(priced: seq<PricedRow>): (s: MrrSummary)
    ensures s.educationCount <= s.activeCount <= |priced|
    ensures s.payingCount <= |priced|
  {
    DedupFacts(Filter(priced, IsPaying), SubscriptionKey);
    DedupFacts(Filter(priced, IsActive), MemberKey);
    DedupFacts(Filter(priced, IsActiveEducation), MemberKey);
    KeySetSize(Filter(priced, IsPaying), SubscriptionKey);
    KeySetSize(Filter(priced, IsActive), MemberKey);
    EducationKeysAreActiveKeys(priced);
    SubsetSize(KeySet(Filter(priced, IsActiveEducation), MemberKey), KeySet(Filter(priced, IsActive), MemberKey));
    MrrSummary(
      SumOf(PayingSubscriptions(priced), Value) / 100.0,
      |PayingSubscriptions(priced)|,
      |DedupBy(Filter(priced, IsActive), MemberKey)|,
      |DedupBy(Filter(priced, IsActiveEducation), MemberKey)|)
  }

  /** `calculate_mrr(subs_df)`: (0, 0, 0, 0) for an empty table, the error of
      an unknown interval unit, or the summary. */
  function MrrOf(rows: seq<SubscriptionRow>): (r: Result<MrrSummary, MrrError>)
    ensures rows == [] ==> r == Success(MrrSummary(0.0, 0, 0, 0))
    ensures r.Success? ==> r.value.educationCount <= r.value.activeCount <= |rows| && r.value.payingCount <= |rows|
  {
    if rows == [] then Success(MrrSummary(0.0, 0, 0, 0))
    else
      match MonthlyValues(rows)
      case Failure(e) => Failure(e)
      case Success(vs) => Success(Summarize(Priced(rows, vs)))
  }

  /** The subscriptions table as a frame; `calculate_mrr` adds the
      `monthly_value` column to it (`None` until added). */
  class SubscriptionFrame {
    var rows: seq<SubscriptionRow>
    var monthlyValue: Option<seq<real>>

    constructor (rows: seq<SubscriptionRow>)
      ensures this.rows == rows && monthlyValue.None?
    {
      this.rows := rows;
      monthlyValue := None;
    }

    /** `calculate_mrr(subs_df)`: the summary, and the `monthly_value` column
        added to this frame whenever it could be computed for a non-empty table. */
    method CalculateMrr() returns (r: Result<MrrSummary, MrrError>)
      modifies this
      ensures rows == old(rows)
      ensures r == MrrOf(rows)
      ensures monthlyValue == if rows != [] && MonthlyValues(rows).Success?
        then Some(MonthlyValues(rows).value) else old(monthlyValue)
    {
      if rows == [] {
        return Success(MrrSummary(0.0, 0, 0, 0));
      }
      var values := MonthlyValues(rows);
      if values.Failure? {
        return Failure(values.error);
      }
      monthlyValue := Some(values.value);
      r := Success(Summarize(Priced(rows, values.value)));
    }
  }

  /** An empty table gives (0, 0, 0, 0). */
  lemma MrrOfEmpty()
    ensures MrrOf([]) == Success(MrrSummary(0.0, 0, 0, 0))
  {
  }

  /** The computation aborts exactly when some row has an interval unit other
      than month, week or year. */
  lemma MrrFailsIffUnknownUnit(rows: seq<SubscriptionRow>)
    ensures MrrOf(rows).Failure? <==> exists i :: 0 <= i < |rows| && rows[i].intervalUnit !in {"month", "week", "year"}
  {
    var r := MonthlyValues(rows);
    if r.Failure? {
      var i :| 0 <= i < |rows| && UnknownUnit(rows[i]);
    }
    if exists i :: 0 <= i < |rows| && rows[i].intervalUnit !in {"month", "week", "year"} {
      var i :| 0 <= i < |rows| && rows[i].intervalUnit !in {"month", "week", "year"};
      assert UnknownUnit(rows[i]);
    }
  }

  /** The counts `calculate_mrr` reports: paying = distinct subscription ids of
      active non-education rows, active = distinct member ids of active rows,
      education = distinct member ids of active education rows, so
      education <= active; MRR is the sum over one row per paying
      subscription, in dollars. */
  lemma SummaryCounts(priced: seq<PricedRow>)
    ensures var s := Summarize(priced);
      && s.payingCount == DistinctCount(Filter(priced, IsPaying), SubscriptionKey)
      && s.activeCount == DistinctCount(Filter(priced, IsActive), MemberKey)
      && s.educationCount == DistinctCount(Filter(priced, IsActiveEducation), MemberKey)
      && s.educationCount <= s.activeCount
      && s.payingCount <= |Filter(priced, IsPaying)|
      && DistinctKeys(PayingSubscriptions(priced), SubscriptionKey)
      && s.mrrDollars * 100.0 == SumOf(PayingSubscriptions(priced), Value)
  {
    DedupFacts(Filter(priced, IsPaying), SubscriptionKey);
    DedupFacts(Filter(priced, IsActive), MemberKey);
    DedupFacts(Filter(priced, IsActiveEducation), MemberKey);
    KeySetSize(Filter(priced, IsPaying), SubscriptionKey);
    EducationKeysAreActiveKeys(priced);
    SubsetSize(KeySet(Filter(priced, IsActiveEducation), MemberKey), KeySet(Filter(priced, IsActive), MemberKey));
  }

  lemma EducationKeysAreActiveKeys(priced: seq<PricedRow>)
    ensures KeySet(Filter(priced, IsActiveEducation), MemberKey) <= KeySet(Filter(priced, IsActive), MemberKey)
  {
    FilterMembers(priced, IsActiveEducation);
    FilterMembers(priced, IsActive);
    forall k | k in KeySet(Filter(priced, IsActiveEducation), MemberKey)
      ensures k in KeySet(Filter(priced, IsActive), MemberKey)
    {
      var e := Filter(priced, IsActiveEducation);
      var i :| 0 <= i < |e| && MemberKey(e[i]) == k;
      assert e[i] in e;
      var a := Filter(priced, IsActive);
      assert e[i] in a;
      var j :| 0 <= j < |a| && a[j] == e[i];
      assert MemberKey(a[j]) == k;
    }
  }

  /** Another seat of a paying group subscription (a row whose subscription id
      is already among the paying rows) changes neither MRR nor the paying
      count: a group subscription counts once. */
  lemma ExtraSeatCountsOnce(priced: seq<PricedRow>, seat: PricedRow)
    requires IsPaying(seat)
    requires exists i :: 0 <= i < |priced| && IsPaying(priced[i]) && priced[i].row.subscriptionId == seat.row.subscriptionId
    ensures Summarize(priced + [seat]).mrrDollars == Summarize(priced).mrrDollars
    ensures Summarize(priced + [seat]).payingCount == Summarize(priced).payingCount
  {
    var i :| 0 <= i < |priced| && IsPaying(priced[i]) && priced[i].row.subscriptionId == seat.row.subscriptionId;
    FilterAppend(priced, [seat], IsPaying);
    assert Filter([seat], IsPaying) == [seat];
    var f := Filter(priced, IsPaying);
    FilterMembers(priced, IsPaying);
    assert priced[i] in f;
    var j :| 0 <= j < |f| && f[j] == priced[i];
    assert SubscriptionKey(seat) == SubscriptionKey(f[j]);
    assert SubscriptionKey(seat) in KeySet(f, SubscriptionKey);
    DedupIgnoresRepeatedKey(f, seat, SubscriptionKey);
  }

  // ---------------------------------------------------------------------
  // prepare_all_members_view

  /** The columns of a subscription joined onto a member row. */
  datatype SubscriptionInfo = SubscriptionInfo(subscriptionId: string, active: bool, plan: string, isEducation: bool)

  datatype AllMembersRow = AllMembersRow(member: MemberRow, subscription: Option<SubscriptionInfo>)

  /** `sort_values("created_at", ascending=False)` order: later first, `NaT` last. */
  predicate CreatedNoLater(a: SubscriptionRow, b: SubscriptionRow) {
    match (a.createdAt, b.createdAt)
    case (None, _) => true
    case (Some(_), None) => false
    case (Some(x), Some(y)) => x <= y
  }

  /** A latest-created subscription of member `id`, if the member has any. */
  function LatestSubscription(subs: seq<SubscriptionRow>, id: string): (r: Option<SubscriptionRow>)
    ensures r.Some? <==> exists i :: 0 <= i < |subs| && subs[i].memberId == id
    ensures r.Some? ==> r.value in subs && r.value.memberId == id
    ensures r.Some? ==> forall i :: 0 <= i < |subs| && subs[i].memberId == id ==> CreatedNoLater(subs[i], r.value)
  {
    if subs == [] then None
    else
      var rest := LatestSubscription(subs[1..], id);
      assert forall i :: 0 < i < |subs| ==> subs[i] == subs[1..][i - 1];
      if subs[0].memberId != id then rest
      else if rest.None? || CreatedNoLater(rest.value, subs[0]) then Some(subs[0])
      else rest
  }

  function InfoOf(s: SubscriptionRow): SubscriptionInfo {
    SubscriptionInfo(s.subscriptionId, s.active, s.plan, s.isEducation)
  }

  /** `prepare_all_members_view`: every member row, in order, with the
      columns of one of its latest subscriptions, or nulls when it has none;
      an empty subscription table gives an empty view. */
  function PrepareAllMembersView(members: seq<MemberRow>, subs: seq<SubscriptionRow>): (r: seq<AllMembersRow>)
    ensures subs == [] ==> r == []
    ensures subs != [] ==> |r| == |members|
    ensures subs != [] ==> forall i :: 0 <= i < |members| ==> r[i].member == members[i]
    ensures subs != [] ==> forall i :: 0 <= i < |members| ==>
      (r[i].subscription.None? <==> forall k :: 0 <= k < |subs| ==> subs[k].memberId != members[i].id)
    ensures subs != [] ==> forall i :: 0 <= i < |members| && r[i].subscription.Some? ==>
      exists s :: s in subs && s.memberId == members[i].id && InfoOf(s) == r[i].subscription.value &&
        forall k :: 0 <= k < |subs| && subs[k].memberId == members[i].id ==> CreatedNoLater(subs[k], s)
  {
    if subs == [] then []
    else
      seq(|members|, i requires 0 <= i < |members| =>
        AllMembersRow(members[i],
          match LatestSubscription(subs, members[i].id)
          case Some(s) => Some(InfoOf(s))
          case None => None))
  }

  // ---------------------------------------------------------------------
  // prepare_new_members

  /** `created_at >= past_date`; `NaT` compares false. */
  predicate CreatedSince(s: SubscriptionRow, cutoff: int) {
    s.createdAt.Some? && s.createdAt.value >= cutoff
  }

  function NewSubKey(s: SubscriptionRow): string { s.subscriptionId }

  /** `prepare_new_members(subs_df, days)` at time `now` (Unix seconds): one
      row per subscription created in the last `days` days. */
  function PrepareNewMembers(subs: seq<SubscriptionRow>, now: int, days: int): (r: seq<SubscriptionRow>)
    ensures |r| <= |subs|
    ensures forall i :: 0 <= i < |r| ==> CreatedSince(r[i], now - days * 86400)
  {
    var cutoff := now - days * 86400;
    DedupFacts(Filter(subs, s => CreatedSince(s, cutoff)), NewSubKey);
    KeySetSize(Filter(subs, s => CreatedSince(s, cutoff)), NewSubKey);
    DedupBy(Filter(subs, s => CreatedSince(s, cutoff)), NewSubKey)
  }

  /** The new-members view holds input rows created at or after the cutoff,
      with pairwise distinct subscription ids, one for every such subscription. */
  lemma NewMembersFacts(subs: seq<SubscriptionRow>, now: int, days: int)
    ensures var r := PrepareNewMembers(subs, now, days);
      var cutoff := now - days * 86400;
      && (forall i :: 0 <= i < |r| ==> r[i] in subs && CreatedSince(r[i], cutoff))
      && DistinctKeys(r, NewSubKey)
      && KeySet(r, NewSubKey) == KeySet(Filter(subs, s => CreatedSince(s, cutoff)), NewSubKey)
      && (subs == [] ==> r == [])
  {
    var cutoff := now - days * 86400;
    var p := s => CreatedSince(s, cutoff);
    var f := Filter(subs, p);
    DedupFacts(f, NewSubKey);
    FilterMembers(subs, p);
    var r := PrepareNewMembers(subs, now, days);
    forall i | 0 <= i < |r| ensures r[i] in subs && CreatedSince(r[i], cutoff) {
      assert r[i] in f;
    }
  }

  // ---------------------------------------------------------------------
  // calculate_recent_orders

  /** An order counted by `calculate_recent_orders`. */
  predicate CountsAsRecent(o: RawOrder, cutoff: int) {
    o.status == Some("completed") && o.createdAt.GetOr(0) >= cutoff
  }

  function OrderCents(o: RawOrder, cutoff: int): int {
    if CountsAsRecent(o, cutoff) then o.totalCents.GetOr(0) else 0
  }

  /** The cents of one member's recent completed orders. */
  function MemberRecentCents(orders: seq<RawOrder>, cutoff: int): int {
    if orders == [] then 0
    else MemberRecentCents(orders[..|orders| - 1], cutoff) + OrderCents(orders[|orders| - 1], cutoff)
  }

  /** The cents of all members' recent completed orders. */
  function RecentCents(ms: seq<RawMember>, cutoff: int): int {
    if ms == [] then 0
    else RecentCents(ms[..|ms| - 1], cutoff) + MemberRecentCents(ms[|ms| - 1].orders, cutoff)
  }

  /** `calculate_recent_orders(members_data, days)` at time `now` (Unix
      seconds): the total of completed orders created at or after
      now - days, in dollars. */
  method CalculateRecentOrders(members: seq<RawMember>, now: int, days: int) returns (dollars: real)
    ensures dollars == RecentCents(members, now - days * 86400) as real / 100.0
  {
    if members == [] {
      return 0.0;
    }
    var cutoff := now - days * 86400;
    var totalCents := 0;
    for i := 0 to |members|
      invariant totalCents == RecentCents(members[..i], cutoff)
    {
      var orders := members[i].orders;
      for j := 0 to |orders|
        invariant totalCents == RecentCents(members[..i], cutoff) + MemberRecentCents(orders[..j], cutoff)
      {
        if orders[j].status == Some("completed") && orders[j].createdAt.GetOr(0) >= cutoff {
          totalCents := totalCents + orders[j].totalCents.GetOr(0);
        }
        assert orders[..j + 1][..j] == orders[..j];
      }
      assert orders[..|orders|] == orders;
      assert members[..i + 1][..i] == members[..i];
    }
    assert members[..|members|] == members;
    dollars := totalCents as real / 100.0;
  }

  /** An order that is not completed, or older than the cutoff, adds nothing,
      wherever it is appended. */
  lemma IgnoredOrderAddsNothing(ms: seq<RawMember>, cutoff: int, o: RawOrder)
    requires ms != [] && !CountsAsRecent(o, cutoff)
    ensures var last := ms[|ms| - 1];
      RecentCents(ms[..|ms| - 1] + [last.(orders := last.orders + [o])], cutoff) == RecentCents(ms, cutoff)
  {
    var last := ms[|ms| - 1];
    var ms' := ms[..|ms| - 1] + [last.(orders := last.orders + [o])];
    assert ms'[..|ms'| - 1] == ms[..|ms| - 1];
    assert (last.orders + [o])[..|last.orders|] == last.orders;
  }

  /** The recent total of a list of members is the sum of the members' recent totals. */
  lemma {:induction false} RecentCentsAppend(a: seq<RawMember>, b: seq<RawMember>, cutoff: int)
    ensures RecentCents(a + b, cutoff) == RecentCents(a, cutoff) + RecentCents(b, cutoff)
    decreases |b|
  {
    if b == [] {
      assert a + b == a;
    } else {
      assert (a + b)[..|a + b| - 1] == a + b[..|b| - 1];
      RecentCentsAppend(a, b[..|b| - 1], cutoff);
    }
  }

  /** Members without orders contribute nothing. */
  lemma {:induction false} NoOrdersNoRecentCents(ms: seq<RawMember>, cutoff: int)
    requires forall i :: 0 <= i < |ms| ==> ms[i].orders == []
    ensures RecentCents(ms, cutoff) == 0
  {
    if ms != [] {
      NoOrdersNoRecentCents(ms[..|ms| - 1], cutoff);
    }
  }
}
