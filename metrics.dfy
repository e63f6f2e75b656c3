/** The membership metrics panel: current counts per plan type, the same
    counts for the subscriptions that were active thirty days ago, their
    differences, and the change of MRR since then. */
module Metrics {
  import opened Base
  import opened Calendar
  import opened Tables
  import opened Members

  const IndividualPlan: string := "Individual membership"
  const SmallBusinessPlan: string := "Small business membership"
  const LargeBusinessPlan: string := "Large business membership"

  /** Thirty days before `now`, in Unix seconds. */
  function MonthAgo(now: int): int {
    now - 30 * SecondsPerDay
  }

  /** A row over which the subscription was live at time `t`: created no later
      than `t` and not expired by then (a missing expiry never expires). A
      missing creation time never qualifies. */
  predicate LiveAt(p: PricedRow, t: int) {
    && p.row.createdAt.Some? && p.row.createdAt.value <= t
    && (p.row.expiresAt.None? || p.row.expiresAt.value > t)
  }

  function Snapshot(priced: seq<PricedRow>, t: int): seq<PricedRow> {
    Filter(priced, (p: PricedRow) => LiveAt(p, t))
  }

  /** The snapshot keeps exactly the live rows, in table order. */
  lemma SnapshotMembers(priced: seq<PricedRow>, t: int)
    ensures forall p :: p in Snapshot(priced, t) <==> p in priced && LiveAt(p, t)
    ensures |Snapshot(priced, t)| <= |priced|
  {
    FilterMembers(priced, (p: PricedRow) => LiveAt(p, t));
  }

  function OnPlan(rows: seq<PricedRow>, plan: string): seq<PricedRow> {
    Filter(rows, KeyIs(PlanKey, plan))
  }

  /** Accounts (distinct subscriptions) and seats (distinct members) of a plan. */
  datatype PlanCount = PlanCount(accounts: nat, seats: nat)

  function CountPlan(rows: seq<PricedRow>, plan: string): (c: PlanCount)
    ensures c.accounts <= |OnPlan(rows, plan)| && c.seats <= |OnPlan(rows, plan)|
    ensures OnPlan(rows, plan) != [] ==> c.accounts >= 1 && c.seats >= 1
  {
    var on := OnPlan(rows, plan);
    DedupFacts(on, SubscriptionKey);
    DedupFacts(on, MemberKey);
    KeySetSize(on, SubscriptionKey);
    KeySetSize(on, MemberKey);
    assert on != [] ==> SubscriptionKey(on[0]) in KeySet(on, SubscriptionKey) && MemberKey(on[0]) in KeySet(on, MemberKey);
    PlanCount(|DedupBy(on, SubscriptionKey)|, |DedupBy(on, MemberKey)|)
  }

  /** Whenever no member holds two subscriptions of the plan, a plan has no
      more accounts than seats. */
  lemma AccountsAtMostSeats(rows: seq<PricedRow>, plan: string)
    requires var on := OnPlan(rows, plan);
      forall i, j :: 0 <= i < |on| && 0 <= j < |on| && MemberKey(on[i]) == MemberKey(on[j]) ==>
        SubscriptionKey(on[i]) == SubscriptionKey(on[j])
    ensures CountPlan(rows, plan).accounts <= CountPlan(rows, plan).seats
  {
    var on := OnPlan(rows, plan);
    DedupFacts(on, SubscriptionKey);
    DedupFacts(on, MemberKey);
    DeterminedKeySetSize(on, MemberKey, SubscriptionKey);
  }

  /** Without that, one member holding two subscriptions of a plan makes two
      accounts of one seat. */
  lemma TwoAccountsOneSeat(a: SubscriptionRow)
    requires a.plan == SmallBusinessPlan
    ensures var b := a.(subscriptionId := a.subscriptionId + "x");
      CountPlan([PricedRow(a, 0.0), PricedRow(b, 0.0)], SmallBusinessPlan) == PlanCount(2, 1)
  {
    var b := a.(subscriptionId := a.subscriptionId + "x");
    var rows := [PricedRow(a, 0.0), PricedRow(b, 0.0)];
    assert |a.subscriptionId + "x"| != |a.subscriptionId|;
    assert rows[1..] == [PricedRow(b, 0.0)] && rows[1..][1..] == [];
    assert PlanKey(rows[0]) == SmallBusinessPlan && PlanKey(rows[1]) == SmallBusinessPlan;
    assert KeyIs(PlanKey, SmallBusinessPlan)(rows[0]) && KeyIs(PlanKey, SmallBusinessPlan)(rows[1]);
    FilterKeepsAll(rows, KeyIs(PlanKey, SmallBusinessPlan));
    assert DedupAfter(rows[1..], SubscriptionKey, {a.subscriptionId}) == [rows[1]];
    assert {} + {SubscriptionKey(rows[0])} == {a.subscriptionId};
    assert DedupBy(rows, SubscriptionKey) == [rows[0]] + DedupAfter(rows[1..], SubscriptionKey, {a.subscriptionId});
    assert DedupAfter(rows[1..], MemberKey, {a.memberId}) == [];
    assert {} + {MemberKey(rows[0])} == {a.memberId};
    assert DedupBy(rows, MemberKey) == [rows[0]] + DedupAfter(rows[1..], MemberKey, {a.memberId});
  }

  /** The figures of the panel. */
  datatype PanelFigures = PanelFigures(
    individual: nat, individualChange: int,
    small: PlanCount, smallAccountsChange: int, smallSeatsChange: int,
    large: PlanCount, largeAccountsChange: int, largeSeatsChange: int,
    education: nat, educationChange: int,
    mrr: real, previousMrr: real, mrrChange: real, mrrChangePercent: real)

  /** MRR of a set of rows: one row per non-education subscription, in dollars;
      0 for no rows. */
  function MrrOfRows(rows: seq<PricedRow>): (r: real)
    ensures (forall i :: 0 <= i < |rows| ==> rows[i].monthlyValue >= 0.0) ==> r >= 0.0
  {
    var paying := DedupBy(Filter(rows, (p: PricedRow) => !p.row.isEducation), SubscriptionKey);
    DedupFacts(Filter(rows, (p: PricedRow) => !p.row.isEducation), SubscriptionKey);
    FilterMembers(rows, (p: PricedRow) => !p.row.isEducation);
    assert (forall i :: 0 <= i < |rows| ==> rows[i].monthlyValue >= 0.0) ==> SumOf(paying, Value) >= 0.0 by {
      if forall i :: 0 <= i < |rows| ==> rows[i].monthlyValue >= 0.0 {
        forall i | 0 <= i < |paying| ensures Value(paying[i]) >= 0.0 {
          assert paying[i] in rows;
        }
        SumNonNegative(paying, Value);
      }
    }
    if paying == [] then 0.0 else SumOf(paying, Value) / 100.0
  }

  /** On rows that are all active, the previous MRR follows `calculate_mrr`'s
      rule: the snapshot's MRR is the summary's MRR of the same rows. */
  lemma PreviousMrrMatchesSummary(rows: seq<PricedRow>)
    requires forall i :: 0 <= i < |rows| ==> rows[i].row.active
    ensures MrrOfRows(rows) == Summarize(rows).mrrDollars
  {
    FilterSameMask(rows, IsPaying, (p: PricedRow) => !p.row.isEducation);
  }

  function ActiveRows(priced: seq<PricedRow>): seq<PricedRow> {
    Filter(priced, IsActive)
  }

  function EducationMembers(rows: seq<PricedRow>): nat {
    |DedupBy(Filter(rows, (p: PricedRow) => p.row.isEducation), MemberKey)|
  }

  /** The figures, from the priced table, `calculate_mrr`'s summary and the
      time of the snapshot. */
  function Figures(priced: seq<PricedRow>, summary: MrrSummary, t: int): PanelFigures {
    var active := ActiveRows(priced);
    var before := Snapshot(priced, t);
    var individual := CountPlan(active, IndividualPlan).seats;
    var individualBefore := CountPlan(before, IndividualPlan).seats;
    var small := CountPlan(active, SmallBusinessPlan);
    var smallBefore := CountPlan(before, SmallBusinessPlan);
    var large := CountPlan(active, LargeBusinessPlan);
    var largeBefore := CountPlan(before, LargeBusinessPlan);
    var previousMrr := MrrOfRows(before);
    PanelFigures(
      individual, individual - individualBefore,
      small, small.accounts - smallBefore.accounts, small.seats - smallBefore.seats,
      large, large.accounts - largeBefore.accounts, large.seats - largeBefore.seats,
      summary.educationCount, summary.educationCount - EducationMembers(before),
      summary.mrrDollars, previousMrr, summary.mrrDollars - previousMrr,
      PercentChange(summary.mrrDollars, previousMrr))
  }

  /** What the panel computes: `calculate_mrr`'s error, or its active count
      together with the figures (none for an empty table). */
  datatype Panel = Panel(figures: Option<PanelFigures>, activeCount: nat)

  function MembershipMetrics(rows: seq<SubscriptionRow>, now: int): (r: Result<Panel, MrrError>)
    ensures r.Failure? <==> MrrOf(rows).Failure?
    ensures r.Success? ==> r.value.activeCount == MrrOf(rows).value.activeCount
    ensures r.Success? ==> (r.value.figures.None? <==> rows == [])
  {
    match MrrOf(rows)
    case Failure(e) => Failure(e)
    case Success(summary) =>
      if rows == [] then Success(Panel(None, summary.activeCount))
      else
        var values := MonthlyValues(rows).value;
        Success(Panel(Some(Figures(Priced(rows, values), summary, MonthAgo(now))), summary.activeCount))
  }

  /** When every row is active and was already live thirty days ago, nothing
      changed: every count difference is 0 and the previous MRR is the
      current one. */
  lemma SteadyStateNoChange(rows: seq<SubscriptionRow>, now: int)
    requires rows != [] && MrrOf(rows).Success?
    requires forall i :: 0 <= i < |rows| ==> (rows[i].createdAt.Some? && rows[i].createdAt.value <= MonthAgo(now) &&
      (rows[i].expiresAt.None? || rows[i].expiresAt.value > MonthAgo(now)))
    requires forall i :: 0 <= i < |rows| ==> rows[i].active
    ensures var f := MembershipMetrics(rows, now).value.figures.value;
      && f.individualChange == 0 && f.smallAccountsChange == 0 && f.smallSeatsChange == 0
      && f.largeAccountsChange == 0 && f.largeSeatsChange == 0
      && f.educationChange == 0
      && f.mrrChange == 0.0 && f.mrrChangePercent == 0.0
  {
    var values := MonthlyValues(rows).value;
    var priced := Priced(rows, values);
    var t := MonthAgo(now);
    FilterSameMask(priced, IsActive, (p: PricedRow) => LiveAt(p, t));
    assert ActiveRows(priced) == priced by {
      FilterKeepsAll(priced, IsActive);
    }
    var summary := Summarize(priced);
    // The education count of the summary is over the active rows, which are all rows.
    FilterSameMask(priced, IsActiveEducation, (p: PricedRow) => p.row.isEducation);
    // The current MRR is over the active non-education rows, which are all non-education rows.
    FilterSameMask(priced, IsPaying, (p: PricedRow) => !p.row.isEducation);
    SummaryCounts(priced);
  }
}
