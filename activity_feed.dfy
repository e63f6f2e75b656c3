/** The recent-activities feed: a readable label and an emoji for each
    activity type, a compact plan description, and the hundred newest
    activities first. */
module ActivityFeed {
  import opened Base
  import opened Strings
  import opened Activities

  // ----- Labels -----

  /** `format_activity_type`: the label shown for an activity type; unknown
      types are shown with underscores as spaces, title-cased. */
  function FormatActivityType(t: string): (r: string)
    ensures !HasOwnLabel(t) ==> |r| == |t| && '_' !in r
  {
    if t == "new_order" || t == "new_subscription" then "New subscription"
    else if t == "subscription_deactivated" then "Subscription deactivated"
    else if t == "subscription_reactivated" then "Subscription reactivated"
    else if t == "free_signup" then "Free signup"
    else if Contains(t, "renewal") && Contains(t, "failed") then "Renewal failed"
    else if t == "renewal" then "Subscription renewed"
    else if t == "upgrade" then "Plan upgraded"
    else if t == "downgrade" then "Plan downgraded"
    else if t == "auto_renew_disabled" then "Auto-renewal disabled"
    else if t == "team_member_deleted" then "Team member removed"
    else if t == "new_team_member" then "New team member added"
    else
      var s := ReplaceChar(t, '_', ' ');
      assert '_' !in Title(s) by {
        forall j | 0 <= j < |Title(s)| ensures Title(s)[j] != '_' {
          TitleKeepsShape(s, false, j);
        }
      }
      Title(s)
  }

  /** The types with a label of their own. */
  predicate HasOwnLabel(t: string) {
    || t in {"new_order", "new_subscription", "subscription_deactivated", "subscription_reactivated", "free_signup",
             "renewal", "upgrade", "downgrade", "auto_renew_disabled", "team_member_deleted", "new_team_member"}
    || (Contains(t, "renewal") && Contains(t, "failed"))
  }

  /** A type mentioning both "renewal" and "failed" is a failed renewal
      unless one of the four exact types tested before it. */
  lemma RenewalFailedLabel(t: string)
    requires Contains(t, "renewal") && Contains(t, "failed")
    requires t !in {"new_order", "new_subscription", "subscription_deactivated", "subscription_reactivated", "free_signup"}
    ensures FormatActivityType(t) == "Renewal failed"
  {
  }

  /** The exact "renewal" type is not caught by the failed-renewal test, so
      it is a renewal. */
  lemma RenewalLabel()
    ensures FormatActivityType("renewal") == "Subscription renewed"
    ensures FormatActivityType("new_order") == "New subscription"
    ensures FormatActivityType("new_subscription") == "New subscription"
  {
    var s: string := "renewal";
    assert s[..6][0] != "failed"[0] && s[1..][..6][0] != "failed"[0];
    if Contains(s[1..][1..], "failed") {
      ContainsFits(s[1..][1..], "failed");
    }
    assert !Contains(s, "failed");
  }

  /** In a title-cased string no lower-case letter follows a space. */
  lemma TitleNoLowerAfterSpace(s: string, j: nat)
    requires j + 1 < |s|
    ensures Title(s)[j] == ' ' ==> !IsLower(Title(s)[j + 1])
  {
    TitleKeepsShape(s, false, j);
    TitleKeepsShape(s, false, j + 1);
    if Title(s)[j] == ' ' && IsLetter(s[j + 1]) {
      TitleCapitalisesWords(s, false, j + 1);
    }
  }

  /** A string with a lower-case letter after a space is no title. */
  lemma NotATitle(s: string, k: string, j: nat)
    requires j + 1 < |k| && k[j] == ' ' && IsLower(k[j + 1])
    ensures Title(s) != k
  {
    if |Title(s)| == |k| {
      TitleNoLowerAfterSpace(s, j);
    }
  }

  /** An unknown type keeps its length, loses its underscores and starts
      every word with a capital. */
  lemma FallbackLabel(t: string)
    requires !HasOwnLabel(t)
    ensures var r := FormatActivityType(t);
      && r == Title(ReplaceChar(t, '_', ' '))
      && |r| == |t|
      && '_' !in r
      && forall j :: 0 <= j < |r| - 1 && r[j] == ' ' ==> !IsLower(r[j + 1])
  {
    var s := ReplaceChar(t, '_', ' ');
    var r := Title(s);
    forall j | 0 <= j < |r| - 1 && r[j] == ' ' ensures !IsLower(r[j + 1]) {
      TitleNoLowerAfterSpace(s, j);
    }
    forall j | 0 <= j < |r| ensures r[j] != '_' {
      TitleKeepsShape(s, false, j);
    }
  }

  // ----- Emoji -----

  const GraduationCap: string := "\U{1F393}"
  const DefaultEmoji: string := "\U{2139}\U{FE0F}"

  /** The emoji of the labels, for members who are not education members. */
  const ActivityEmojis: map<string, string> := map[
    "New subscription" := "\U{1F7E2}",
    "Subscription renewed" := "\U{1F504}",
    "Free signup" := "\U{1F535}",
    "Subscription deactivated" := "\U{1F534}",
    "Auto-renewal disabled" := "\U{1F7E0}",
    "Team member removed" := "\U{1F464}\U{274C}",
    "New team member added" := "\U{1F464}\U{2795}",
    "Renewal failed" := "\U{26A0}\U{FE0F}",
    "Plan upgraded" := "\U{2B06}\U{FE0F}",
    "Plan downgraded" := "\U{2B07}\U{FE0F}",
    "Education members" := GraduationCap,
    "Education renewals" := GraduationCap,
    "Education cancellations" := GraduationCap,
    "Education changes" := GraduationCap]

  /** `get_activity_emoji`: a graduation cap for education members (crossed
      out for a deactivation), the table's emoji or the default otherwise. */
  function ActivityEmoji(activity: string, isEducation: bool): (e: string)
    ensures isEducation ==> StartsWith(e, GraduationCap)
    ensures !isEducation ==> e == DefaultEmoji || e in ActivityEmojis.Values
  {
    if isEducation then
      if Contains(activity, "New subscription") || Contains(activity, "new_order") then GraduationCap
      else if Contains(activity, "Subscription renewed") then GraduationCap
      else if Contains(activity, "Subscription deactivated") then GraduationCap + "\U{274C}"
      else GraduationCap
    else if activity in ActivityEmojis then ActivityEmojis[activity]
    else DefaultEmoji
  }

  /** Education members always get the cap, crossed out exactly for a
      deactivation that is no subscription or renewal. */
  lemma EducationEmoji(activity: string)
    ensures var e := ActivityEmoji(activity, true);
      && (e == GraduationCap || e == GraduationCap + "\U{274C}")
      && (e == GraduationCap + "\U{274C}" <==>
            && Contains(activity, "Subscription deactivated")
            && !Contains(activity, "New subscription") && !Contains(activity, "new_order")
            && !Contains(activity, "Subscription renewed"))
  {
    assert (GraduationCap + "\U{274C}")[1] == '\U{274C}';
  }

  /** No label is an education category, so the four education entries of
      the table are never used. */
  lemma EducationEntriesUnused(t: string)
    ensures FormatActivityType(t) !in {"Education members", "Education renewals", "Education cancellations", "Education changes"}
  {
    if !HasOwnLabel(t) {
      TitleIsNoEducationKey(ReplaceChar(t, '_', ' '));
    }
  }

  lemma TitleIsNoEducationKey(s: string)
    ensures Title(s) !in {"Education members", "Education renewals", "Education cancellations", "Education changes"}
  {
    NotATitle(s, "Education members", 9);
    NotATitle(s, "Education renewals", 9);
    NotATitle(s, "Education cancellations", 9);
    NotATitle(s, "Education changes", 9);
  }

  /** Every type with a label of its own finds its label in the emoji table,
      except a reactivation, whose label the table lacks. */
  lemma OwnLabelsHaveEmoji(t: string)
    requires HasOwnLabel(t)
    ensures FormatActivityType(t) in ActivityEmojis <==> t != "subscription_reactivated"
  {
  }

  /** Every unknown type gets the default emoji: its title-cased label is
      none of the table's keys. */
  lemma FallbackEmoji(t: string)
    requires !HasOwnLabel(t)
    ensures ActivityEmoji(FormatActivityType(t), false) == DefaultEmoji
  {
    var s := ReplaceChar(t, '_', ' ');
    TitleIsNoSubscriptionKey(s);
    TitleIsNoOtherKey(s);
    EducationEntriesUnused(t);
  }

  lemma TitleIsNoSubscriptionKey(s: string)
    ensures Title(s) !in {"New subscription", "Subscription renewed", "Free signup", "Subscription deactivated", "Auto-renewal disabled"}
  {
    NotATitle(s, "New subscription", 3);
    NotATitle(s, "Subscription renewed", 12);
    NotATitle(s, "Free signup", 4);
    NotATitle(s, "Subscription deactivated", 12);
    NotATitle(s, "Auto-renewal disabled", 12);
  }

  lemma TitleIsNoOtherKey(s: string)
    ensures Title(s) !in {"Team member removed", "New team member added", "Renewal failed", "Plan upgraded", "Plan downgraded"}
  {
    NotATitle(s, "Team member removed", 4);
    NotATitle(s, "New team member added", 3);
    NotATitle(s, "Renewal failed", 7);
    NotATitle(s, "Plan upgraded", 4);
    NotATitle(s, "Plan downgraded", 4);
  }

  // ----- Plan details -----

  /** `round(cents / 100)`: the nearest whole dollar, ties to even, as `%.0f`
      rounds. */
  function RoundDollars(cents: int): (d: int)
    ensures -50 <= cents - 100 * d <= 50
    ensures (cents - 100 * d == 50 || cents - 100 * d == -50) ==> d % 2 == 0
  {
    var q := cents / 100;
    var rem := cents % 100;
    if rem < 50 then q else if rem > 50 then q + 1 else if q % 2 == 0 then q else q + 1
  }

  /** `f"{cents / 100:.0f}"`; a negative amount that rounds to 0 prints "-0". */
  function DollarsText(cents: int): string {
    var d := RoundDollars(cents);
    if d == 0 && cents < 0 then "-0" else IntToString(d)
  }

  /** `format_plan_details`: "name ($price/unit)" or "name ($price/N units)",
      empty without a plan name and price. */
  function FormatPlanDetails(plan: Option<PlanColumns>): (r: string)
    ensures r == "" <==> plan.None? || plan.value.name.None? || plan.value.priceCents.None?
    ensures r != "" ==> r[|r| - 1] == ')'
  {
    if plan.None? || plan.value.name.None? || plan.value.priceCents.None? then ""
    else
      var p := plan.value;
      var interval := p.intervalUnit.GetOr("month");
      var price := DollarsText(p.priceCents.value);
      if p.intervalCount > 1 then p.name.value + " ($" + price + "/" + IntToString(p.intervalCount) + " " + interval + "s)"
      else p.name.value + " ($" + price + "/" + interval + ")"
  }

  const PriceMark: string := " ($"

  predicate MarkAt(s: string, i: nat) {
    i + 3 <= |s| && s[i..i + 3] == PriceMark
  }

  /** The details are empty exactly without a name or a price; otherwise they
      are the name followed by " ($", and when the name itself holds no " ($"
      the first " ($" follows the name, so the name is what comes before it. */
  lemma PlanDetailsName(plan: Option<PlanColumns>)
    ensures FormatPlanDetails(plan) == "" <==> plan.None? || plan.value.name.None? || plan.value.priceCents.None?
    ensures plan.Some? && plan.value.name.Some? && plan.value.priceCents.Some? ==>
      var r := FormatPlanDetails(plan);
      var name := plan.value.name.value;
      && |name| + 3 <= |r| && r[..|name|] == name && MarkAt(r, |name|)
      && (!Contains(name, PriceMark) ==> forall i :: 0 <= i < |name| ==> !MarkAt(r, i))
  {
    if plan.Some? && plan.value.name.Some? && plan.value.priceCents.Some? {
      var r := FormatPlanDetails(plan);
      var name := plan.value.name.value;
      var rest := r[|name| + 3..];
      assert r == name + PriceMark + rest;
      assert forall k :: 0 <= k < |name| ==> r[k] == name[k];
      assert r[|name|] == ' ';
      assert r[|name|..|name| + 3] == PriceMark;
      if !Contains(name, PriceMark) {
        forall i | 0 <= i < |name| ensures !MarkAt(r, i) {
          if i + 3 <= |name| {
            assert r[i..i + 3] == name[i..i + 3];
            if name[i..i + 3] == PriceMark {
              ContainsAt(name, PriceMark, i);
            }
          } else if i == |name| - 1 {
            assert r[i..i + 3][1] == ' ' != PriceMark[1];
          } else {
            assert r[i..i + 3][2] == ' ' != PriceMark[2];
          }
        }
      }
    }
  }

  /** After the name and " ($" come the rounded price and a slash; the
      details end in "/N units)" when the interval count exceeds 1 and in
      "/unit)" otherwise, the unit defaulting to "month". */
  lemma PlanDetailsUnits(plan: Option<PlanColumns>)
    requires plan.Some? && plan.value.name.Some? && plan.value.priceCents.Some?
    ensures var p := plan.value;
      var r := FormatPlanDetails(plan);
      var unit := p.intervalUnit.GetOr("month");
      && |p.name.value| + 3 <= |r|
      && StartsWith(r[|p.name.value| + 3..], DollarsText(p.priceCents.value) + "/")
      && (p.intervalCount > 1 ==> EndsWith(r, "/" + IntToString(p.intervalCount) + " " + unit + "s)"))
      && (p.intervalCount <= 1 ==> EndsWith(r, "/" + unit + ")"))
  {
    var p := plan.value;
    var r := FormatPlanDetails(plan);
    var unit := p.intervalUnit.GetOr("month");
    var name := p.name.value;
    var price := DollarsText(p.priceCents.value);
    var ending := if p.intervalCount > 1 then "/" + IntToString(p.intervalCount) + " " + unit + "s)" else "/" + unit + ")";
    var head := name + PriceMark + price;
    assert r == head + ending by {
      if p.intervalCount > 1 {
        assert r == head + "/" + IntToString(p.intervalCount) + " " + unit + "s)";
      } else {
        assert r == head + "/" + unit + ")";
      }
    }
    assert r[|name| + 3..] == price + ending;
    assert (price + ending)[..|price| + 1] == price + "/";
    assert r[|r| - |ending|..] == ending;
  }

  // ----- The feed -----

  /** One line of the feed. */
  datatype FeedItem = FeedItem(createdAt: Option<int>, memberName: string, activity: string, emoji: string, planDetails: string)

  function FeedItemOf(r: ActivityRecord): FeedItem {
    var activity := FormatActivityType(r.activityType);
    FeedItem(r.createdAt, r.memberName.GetOr("Unknown"), activity, ActivityEmoji(activity, r.isEducation), FormatPlanDetails(r.plan))
  }

  function FeedItems(records: seq<ActivityRecord>): (items: seq<FeedItem>)
    ensures |items| == |records|
    ensures forall i :: 0 <= i < |records| ==> items[i] == FeedItemOf(records[i])
  {
    seq(|records|, i requires 0 <= i < |records| => FeedItemOf(records[i]))
  }

  /** `a` may come before `b` newest first: `b` has no time, or `a` has one no
      earlier than `b`'s (missing times sort last). */
  predicate NoLater(a: FeedItem, b: FeedItem) {
    b.createdAt.None? || (a.createdAt.Some? && a.createdAt.value >= b.createdAt.value)
  }

  predicate NewestFirst(s: seq<FeedItem>) {
    forall i, j :: 0 <= i < j < |s| ==> NoLater(s[i], s[j])
  }

  /** Inserts `x` before the first item it may precede. */
  function InsertByTime(s: seq<FeedItem>, x: FeedItem): seq<FeedItem> {
    if s == [] then [x]
    else if NoLater(x, s[0]) then [x] + s
    else [s[0]] + InsertByTime(s[1..], x)
  }

  lemma NoLaterTransitive(a: FeedItem, b: FeedItem, c: FeedItem)
    requires NoLater(a, b) && NoLater(b, c)
    ensures NoLater(a, c)
  {
  }

  /** An item followed by a newest-first sequence is newest first exactly
      when it may precede every item of the sequence. */
  lemma NewestFirstCons(h: FeedItem, s: seq<FeedItem>)
    ensures NewestFirst([h] + s) <==> NewestFirst(s) && forall y :: y in s ==> NoLater(h, y)
  {
    var r := [h] + s;
    if NewestFirst(s) && forall y :: y in s ==> NoLater(h, y) {
      forall i, j | 0 <= i < j < |r| ensures NoLater(r[i], r[j]) {
        assert r[j] == s[j - 1] && r[j] in s;
        if i > 0 {
          assert r[i] == s[i - 1];
        }
      }
    }
    if NewestFirst(r) {
      forall i, j | 0 <= i < j < |s| ensures NoLater(s[i], s[j]) {
        assert s[i] == r[i + 1] && s[j] == r[j + 1];
      }
      forall y | y in s ensures NoLater(h, y) {
        var k :| 0 <= k < |s| && s[k] == y;
        assert r[0] == h && r[k + 1] == y;
      }
    }
  }

  lemma {:induction false} InsertMultiset(s: seq<FeedItem>, x: FeedItem)
    ensures multiset(InsertByTime(s, x)) == multiset(s) + multiset{x}
  {
    if s != [] {
      assert s == [s[0]] + s[1..];
      if !NoLater(x, s[0]) {
        InsertMultiset(s[1..], x);
      }
    }
  }

  lemma {:induction false} InsertKeepsOrder(s: seq<FeedItem>, x: FeedItem)
    requires NewestFirst(s)
    ensures NewestFirst(InsertByTime(s, x))
  {
    if s != [] {
      assert s == [s[0]] + s[1..];
      NewestFirstCons(s[0], s[1..]);
      if NoLater(x, s[0]) {
        forall y | y in s ensures NoLater(x, y) {
          if y != s[0] {
            NoLaterTransitive(x, s[0], y);
          }
        }
        NewestFirstCons(x, s);
      } else {
        var tail := InsertByTime(s[1..], x);
        InsertKeepsOrder(s[1..], x);
        InsertMultiset(s[1..], x);
        forall y | y in tail ensures NoLater(s[0], y) {
          assert y in multiset(tail);
        }
        NewestFirstCons(s[0], tail);
      }
    }
  }

  /** The first `n` items of a newest-first sequence are newest first, and
      none of the others is newer than one of them. */
  lemma PrefixIsNewest(sorted: seq<FeedItem>, n: nat)
    requires NewestFirst(sorted) && n <= |sorted|
    ensures NewestFirst(sorted[..n])
    ensures multiset(sorted[..n]) <= multiset(sorted)
    ensures forall x, j :: x in multiset(sorted) - multiset(sorted[..n]) && 0 <= j < n ==> NoLater(sorted[..n][j], x)
  {
    var feed := sorted[..n];
    assert sorted == feed + sorted[n..];
    assert multiset(sorted) == multiset(feed) + multiset(sorted[n..]);
    forall x, j | x in multiset(sorted) - multiset(feed) && 0 <= j < n ensures NoLater(feed[j], x) {
      assert x in multiset(sorted[n..]);
      var l :| 0 <= l < |sorted[n..]| && sorted[n..][l] == x;
      assert sorted[n + l] == x && feed[j] == sorted[j];
    }
  }

  /** `display_activities`: one feed line per activity, sorted newest first
      (activities without a time last), the first hundred kept. The feed is
      in order, drawn from the activities, as long as it can be, and no
      activity left out is newer than one shown. */
  method ShowMemberActivities(records: seq<ActivityRecord>) returns (feed: seq<FeedItem>)
    ensures |feed| == if |records| < 100 then |records| else 100
    ensures NewestFirst(feed)
    ensures multiset(feed) <= multiset(FeedItems(records))
    ensures forall x, j :: x in multiset(FeedItems(records)) - multiset(feed) && 0 <= j < |feed| ==> NoLater(feed[j], x)
  {
    var items := FeedItems(records);
    var sorted := SortNewestFirst(items);
    var n := if |sorted| < 100 then |sorted| else 100;
    assert |sorted| == |records| by {
      assert |multiset(sorted)| == |multiset(items)|;
    }
    PrefixIsNewest(sorted, n);
    feed := sorted[..n];
  }

  /** `sort_values("created_at", ascending=False)`: the items newest first,
      missing times last, as a permutation of the input. */
  method SortNewestFirst(items: seq<FeedItem>) returns (sorted: seq<FeedItem>)
    ensures NewestFirst(sorted)
    ensures multiset(sorted) == multiset(items)
  {
    sorted := [];
    for i := 0 to |items|
      invariant NewestFirst(sorted)
      invariant multiset(sorted) == multiset(items[..i])
    {
      InsertKeepsOrder(sorted, items[i]);
      InsertMultiset(sorted, items[i]);
      sorted := InsertByTime(sorted, items[i]);
      assert items[..i + 1] == items[..i] + [items[i]];
    }
    assert items[..|items|] == items;
  }
}
