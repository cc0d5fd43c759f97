/** The aggregation helpers of the analytics report: percentage change and
    the current/previous comparison record, per-plan grouping, the inclusive
    creation-date filter and the guarded, rounded average. Numbers are exact
    reals; JavaScript's `Math.round` is rounding half up. */
module AnalyticsHelper {
  import opened Wrappers
  import opened AnalyticsTypes

  // ---------------------------------------------------------------------------
  // Rounding
  // ---------------------------------------------------------------------------

  /** `Math.round(x)`: the nearest integer, a half rounded towards +infinity. */
  function RoundHalfUp(x: real): (r: int)
    ensures r as real - 0.5 <= x < r as real + 0.5
  {
    (x + 0.5).Floor
  }

  /** `Math.round(x * 100) / 100`: x rounded to a whole number of hundredths. */
  function Round2(x: real): (r: real)
    ensures x - 0.005 < r <= x + 0.005
    ensures (100.0 * r).Floor as real == 100.0 * r
  {
    RoundHalfUp(100.0 * x) as real / 100.0
  }

  /** The nearest integer is unique: any integer within half a unit of x,
      counting the lower half-point in, is what `Math.round` returns. */
  lemma RoundHalfUpUnique(x: real, k: int)
    requires k as real - 0.5 <= x < k as real + 0.5
    ensures RoundHalfUp(x) == k
  {
  }

  /** Rounding to hundredths never reverses an order. */
  lemma Round2Monotone(x: real, y: real)
    requires x <= y
    ensures Round2(x) <= Round2(y)
  {
    assert (100.0 * x + 0.5).Floor <= (100.0 * y + 0.5).Floor;
  }

  /** A value already held in hundredths is left unchanged, so rounding twice
      is rounding once. */
  lemma Round2Idempotent(x: real)
    ensures Round2(Round2(x)) == Round2(x)
  {
    var r := Round2(x);
    var k := (100.0 * r).Floor;
    assert 100.0 * r == k as real;
    RoundHalfUpUnique(100.0 * r, k);
  }

  // ---------------------------------------------------------------------------
  // Percentage change and the comparison record
  // ---------------------------------------------------------------------------

  /** `calculatePercentageChange`: from a zero baseline the change is 0 when
      nothing changed and 100 otherwise; else the relative change in percent,
      rounded half up. */
  function PercentageChange(current: real, previous: real): (r: int)
    ensures previous == 0.0 ==> r == (if current == 0.0 then 0 else 100)
    ensures previous != 0.0 ==>
      r as real - 0.5 <= (current - previous) / previous * 100.0 < r as real + 0.5
  {
    if previous == 0.0 then (if current == 0.0 then 0 else 100)
    else RoundHalfUp((current - previous) / previous * 100.0)
  }

  /** Equal measurements give no change, from any baseline. */
  lemma PercentageUnchanged(x: real)
    ensures PercentageChange(x, x) == 0
  {
  }

  /** Doubling a non-zero measurement is a change of exactly 100 percent. */
  lemma PercentageDoubled(previous: real)
    requires previous != 0.0
    ensures PercentageChange(2.0 * previous, previous) == 100
  {
    assert (2.0 * previous - previous) / previous * 100.0 == 100.0;
  }

  /** Falling to zero from a non-zero measurement is a change of -100 percent. */
  lemma PercentageVanished(previous: real)
    requires previous != 0.0
    ensures PercentageChange(0.0, previous) == -100
  {
    assert (0.0 - previous) / previous * 100.0 == -100.0;
  }

  /** From a positive baseline the sign of the change follows the direction of
      the measurement (a drop of less than half a percent rounds to zero). */
  lemma PercentageSign(current: real, previous: real)
    requires previous > 0.0
    ensures current >= previous ==> PercentageChange(current, previous) >= 0
    ensures current <= previous ==> PercentageChange(current, previous) <= 0
  {
    var x := (current - previous) / previous * 100.0;
    if current >= previous {
      assert x >= 0.0;
    } else {
      assert x < 0.0;
    }
  }

  /** The invariant every comparison record of the report keeps. */
  ghost predicate ConsistentComparison(m: MetricComparison)
  {
    if m.previous == 0.0 then
      m.percentageChange == (if m.current == 0.0 then 0 else 100)
    else
      var x := (m.current - m.previous) / m.previous * 100.0;
      m.percentageChange as real - 0.5 <= x < m.percentageChange as real + 0.5
  }

  /** `createMetricComparison`: both measurements copied unchanged, the
      percentage change consistent with them. */
  function CreateMetricComparison(current: real, previous: real): (m: MetricComparison)
    ensures m.current == current && m.previous == previous
    ensures ConsistentComparison(m)
  {
    MetricComparison(current, previous, PercentageChange(current, previous))
  }

  /** The invariant leaves no freedom: two consistent records over the same
      measurements are equal, so the one built by CreateMetricComparison is
      the only consistent record. */
  lemma ConsistentComparisonUnique(m1: MetricComparison, m2: MetricComparison)
    requires ConsistentComparison(m1) && ConsistentComparison(m2)
    requires m1.current == m2.current && m1.previous == m2.previous
    ensures m1 == m2
  {
    if m1.previous != 0.0 {
      var x := (m1.current - m1.previous) / m1.previous * 100.0;
      RoundHalfUpUnique(x, m1.percentageChange);
      RoundHalfUpUnique(x, m2.percentageChange);
    }
  }

  // ---------------------------------------------------------------------------
  // Date-range filter
  // ---------------------------------------------------------------------------

  /** The filter's test: a valid creation instant inside [startDate, endDate],
      both ends included. */
  predicate InRange(u: User, startDate: int, endDate: int)
  {
    u.dateCreated.Some? && startDate <= u.dateCreated.value <= endDate
  }

  /** `filterUsersByDateRange`: the users, in order, created inside the range. */
  function FilterUsersByDateRange(users: seq<User>, startDate: int, endDate: int): (r: seq<User>)
    ensures |r| <= |users|
    ensures forall u :: u in r <==> u in users && InRange(u, startDate, endDate)
  {
    if users == [] then []
    else
      (if InRange(users[0], startDate, endDate) then [users[0]] else [])
      + FilterUsersByDateRange(users[1..], startDate, endDate)
  }

  /** a is obtained from b by deleting elements, keeping the order of the rest. */
  ghost predicate IsSubsequence<T>(a: seq<T>, b: seq<T>)
    decreases |b|
  {
    if a == [] then true
    else if b == [] then false
    else (a[0] == b[0] && IsSubsequence(a[1..], b[1..])) || IsSubsequence(a, b[1..])
  }

  /** The filter keeps the input order. */
  lemma {:induction false} FilterIsSubsequence(users: seq<User>, startDate: int, endDate: int)
    ensures IsSubsequence(FilterUsersByDateRange(users, startDate, endDate), users)
  {
    if users != [] {
      var rest := FilterUsersByDateRange(users[1..], startDate, endDate);
      FilterIsSubsequence(users[1..], startDate, endDate);
      if InRange(users[0], startDate, endDate) {
        assert ([users[0]] + rest)[1..] == rest;
      } else {
        assert [] + rest == rest;
      }
    }
  }

  /** Filtering a concatenation filters each part: the filter decides every
      user on its own. */
  lemma {:induction false} FilterAppend(a: seq<User>, b: seq<User>, startDate: int, endDate: int)
    ensures FilterUsersByDateRange(a + b, startDate, endDate)
         == FilterUsersByDateRange(a, startDate, endDate) + FilterUsersByDateRange(b, startDate, endDate)
  {
    if a != [] {
      assert (a + b)[1..] == a[1..] + b;
      FilterAppend(a[1..], b, startDate, endDate);
    } else {
      assert a + b == b;
    }
  }

  /** Applying the same range twice is applying it once. */
  lemma {:induction false} FilterIdempotent(users: seq<User>, startDate: int, endDate: int)
    ensures FilterUsersByDateRange(FilterUsersByDateRange(users, startDate, endDate), startDate, endDate)
         == FilterUsersByDateRange(users, startDate, endDate)
  {
    if users != [] {
      var rest := FilterUsersByDateRange(users[1..], startDate, endDate);
      FilterIdempotent(users[1..], startDate, endDate);
      if InRange(users[0], startDate, endDate) {
        assert ([users[0]] + rest)[1..] == rest;
      } else {
        assert [] + rest == rest;
      }
    }
  }

  /** Two ranges that do not overlap never both keep a user. */
  lemma FilterDisjointRanges(users: seq<User>, start1: int, end1: int, start2: int, end2: int)
    requires end1 < start2 || end2 < start1
    ensures forall u :: u in FilterUsersByDateRange(users, start1, end1)
                    ==> u !in FilterUsersByDateRange(users, start2, end2)
  {
  }

  /** Splitting a range into two abutting ranges, [startDate, mid] and
      [mid + 1, endDate], splits its result without loss or double counting. */
  lemma {:induction false} FilterAbuttingRanges(users: seq<User>, startDate: int, mid: int, endDate: int)
    requires startDate <= mid + 1 && mid <= endDate
    ensures multiset(FilterUsersByDateRange(users, startDate, endDate))
         == multiset(FilterUsersByDateRange(users, startDate, mid))
          + multiset(FilterUsersByDateRange(users, mid + 1, endDate))
  {
    if users != [] {
      FilterAbuttingRanges(users[1..], startDate, mid, endDate);
    }
  }

  // ---------------------------------------------------------------------------
  // Guarded average
  // ---------------------------------------------------------------------------

  /** `users.reduce((acc, user) => acc + valueGetter(user), 0)`. */
  function SumOf(users: seq<User>, getter: User -> real): real
  {
    if users == [] then 0.0
    else SumOf(users[..|users| - 1], getter) + getter(users[|users| - 1])
  }

  /** `calculateAverage`: 0 for no users, otherwise the mean rounded to
      hundredths. */
  function CalculateAverage(users: seq<User>, getter: User -> real): (r: real)
    ensures users == [] ==> r == 0.0
    ensures users != [] ==>
      var mean := SumOf(users, getter) / |users| as real;
      mean - 0.005 < r <= mean + 0.005 && r == Round2(mean)
  {
    if |users| == 0 then 0.0
    else Round2(SumOf(users, getter) / |users| as real)
  }

  lemma {:induction false} SumOfBounds(users: seq<User>, getter: User -> real, lo: real, hi: real)
    requires forall u :: u in users ==> lo <= getter(u) <= hi
    ensures lo * |users| as real <= SumOf(users, getter) <= hi * |users| as real
  {
    if users != [] {
      var init := users[..|users| - 1];
      assert forall u :: u in init ==> u in users;
      SumOfBounds(init, getter, lo, hi);
      assert users[|users| - 1] in users;
      var n := |init| as real;
      assert lo * (n + 1.0) == lo * n + lo;
      assert hi * (n + 1.0) == hi * n + hi;
    }
  }

  /** The average of values that all lie in [lo, hi] lies in
      [Round2(lo), Round2(hi)]. */
  lemma AverageWithinBounds(users: seq<User>, getter: User -> real, lo: real, hi: real)
    requires users != []
    requires forall u :: u in users ==> lo <= getter(u) <= hi
    ensures Round2(lo) <= CalculateAverage(users, getter) <= Round2(hi)
  {
    var n := |users| as real;
    var s := SumOf(users, getter);
    SumOfBounds(users, getter, lo, hi);
    assert lo <= s / n by {
      assert lo * n <= s;
      assert lo == (lo * n) / n;
    }
    assert s / n <= hi by {
      assert s <= hi * n;
      assert hi == (hi * n) / n;
    }
    Round2Monotone(lo, s / n);
    Round2Monotone(s / n, hi);
  }


  // ---------------------------------------------------------------------------
  // Per-plan grouping: reference definitions
  // ---------------------------------------------------------------------------

  /** The users grouped under `name`, in input order. */
  function Group(users: seq<User>, name: string): (g: seq<User>)
    ensures forall u :: u in g <==> u in users && BelongsTo(u, name)
  {
    if users == [] then []
    else
      var last := users[|users| - 1];
      Group(users[..|users| - 1], name) + (if BelongsTo(last, name) then [last] else [])
  }

  /** The distinct plan names, in the order their first user appears. */
  function PlanNames(users: seq<User>): seq<string>
  {
    if users == [] then []
    else
      var names := PlanNames(users[..|users| - 1]);
      var last := users[|users| - 1];
      if HasPlanName(last) && last.plan.value.planName !in names
      then names + [last.plan.value.planName]
      else names
  }

  function TrialCount(g: seq<User>): nat
  {
    if g == [] then 0
    else TrialCount(g[..|g| - 1]) + (if g[|g| - 1].isTrialActive then 1 else 0)
  }

  function NonTrialCount(g: seq<User>): nat
  {
    if g == [] then 0
    else NonTrialCount(g[..|g| - 1]) + (if g[|g| - 1].isTrialActive then 0 else 1)
  }

  function FeedSum(g: seq<User>): nat
  {
    if g == [] then 0
    else FeedSum(g[..|g| - 1]) + FeedCount(g[|g| - 1])
  }

  /** A user's feed count as a value for CalculateAverage. */
  function FeedsOf(u: User): real
  {
    FeedCount(u) as real
  }

  /** The number of users that have a plan name. */
  function CountWithPlan(users: seq<User>): nat
  {
    if users == [] then 0
    else CountWithPlan(users[..|users| - 1]) + (if HasPlanName(users[|users| - 1]) then 1 else 0)
  }

  /** The sum of the user counts of a list of entries. */
  function TotalUserCount(plans: seq<PlanAnalytics>): nat
  {
    if plans == [] then 0
    else TotalUserCount(plans[..|plans| - 1]) + plans[|plans| - 1].userCount
  }

  /** Entry `p` after one more user of its plan: the count, the running feed
      sum and exactly one of the two trial counters go up. */
  function Bumped(p: PlanAnalytics, u: User): PlanAnalytics
  {
    p.(userCount := p.userCount + 1,
       averageFeeds := p.averageFeeds + FeedCount(u) as real,
       trialCount := p.trialCount + (if u.isTrialActive then 1 else 0),
       nonTrialCount := p.nonTrialCount + (if u.isTrialActive then 0 else 1))
  }

  /** The accumulator entry for `name` after the first pass over `users`.
      The entry is created by the first user of the plan, with that user's
      price; TallyMatchesGroup states it in terms of the plan's group. */
  function Tally(users: seq<User>, name: string): PlanAnalytics
  {
    if users == [] then PlanAnalytics(name, 0, 0.0, 0, 0, 0.0)
    else
      var t := Tally(users[..|users| - 1], name);
      var last := users[|users| - 1];
      if !BelongsTo(last, name) then t
      else if t.userCount == 0 then Bumped(t.(price := last.plan.value.planPrice), last)
      else Bumped(t, last)
  }

  /** The second pass: the running feed sum becomes the rounded average. */
  function Finalize(p: PlanAnalytics): PlanAnalytics
  {
    if p.userCount > 0 then p.(averageFeeds := Round2(p.averageFeeds / p.userCount as real)) else p
  }

  /** What `calculatePlanAnalytics` returns, as a sequence in the map's
      insertion order. */
  function PlanDistribution(users: seq<User>): seq<PlanAnalytics>
  {
    var names := PlanNames(users);
    seq(|names|, k requires 0 <= k < |names| => Finalize(Tally(users, names[k])))
  }

  // ---------------------------------------------------------------------------
  // Per-plan grouping: the imperative aggregation
  // ---------------------------------------------------------------------------

  /** The Map's lookup during the first pass: `slot` holds exactly the listed
      names, each at its position in `names`. */
  ghost predicate SlotsAgree(names: seq<string>, slot: map<string, nat>)
  {
    && (forall n :: n in slot <==> n in names)
    && (forall n :: n in slot ==> slot[n] < |names| && names[slot[n]] == n)
  }

  /** The Map's entries during the first pass: one per listed name, each the
      tally of its name over `prefix`. */
  ghost predicate TalliesAgree(prefix: seq<User>, names: seq<string>, plans: seq<PlanAnalytics>)
  {
    && |plans| == |names|
    && (forall k :: 0 <= k < |plans| ==> plans[k] == Tally(prefix, names[k]))
  }

  /** `calculatePlanAnalytics`: the first pass accumulates one entry per
      named plan, the second turns each entry's feed sum into an average. */
  method CalculatePlanAnalytics(users: seq<User>) returns (plans: seq<PlanAnalytics>)
    ensures plans == PlanDistribution(users)
  {
    var raw := AccumulatePlans(users);
    plans := FinalizePlans(raw);
  }

  /** The first `forEach`, one AddUser step per user, in order. */
  method AccumulatePlans(users: seq<User>) returns (plans: seq<PlanAnalytics>)
    ensures |plans| == |PlanNames(users)|
    ensures forall k :: 0 <= k < |plans| ==> plans[k] == Tally(users, PlanNames(users)[k])
  {
    plans := [];
    var slot: map<string, nat> := map[];
    ghost var seen: seq<User> := [];
    ghost var names: seq<string> := [];
    var i := 0;
    while i < |users|
      invariant 0 <= i <= |users| && seen == users[..i]
      invariant names == PlanNames(seen)
      invariant SlotsAgree(names, slot)
      invariant TalliesAgree(seen, names, plans)
    {
      var user := users[i];
      ghost var pre := seen;
      assert users[..i + 1] == pre + [user];
      plans, slot := AddUser(pre, user, plans, slot);
      seen := pre + [user];
      names := PlanNames(seen);
      i := i + 1;
    }
    assert seen == users;
  }

  /** The callback of the first `forEach` for one user: skip a user without
      a plan name; otherwise insert an empty entry for a new name (with this
      user's price) and bump the entry's counters. */
  method AddUser(ghost pre: seq<User>, user: User, plans0: seq<PlanAnalytics>, slot0: map<string, nat>)
    returns (plans: seq<PlanAnalytics>, slot: map<string, nat>)
    requires SlotsAgree(PlanNames(pre), slot0) && TalliesAgree(pre, PlanNames(pre), plans0)
    ensures SlotsAgree(PlanNames(pre + [user]), slot)
    ensures TalliesAgree(pre + [user], PlanNames(pre + [user]), plans)
  {
    plans, slot := plans0, slot0;
    if !(user.plan.Some? && user.plan.value.planName != "") {
      StepSkip(pre, user, plans, slot);
      return;
    }
    var name := user.plan.value.planName;
    if name !in slot {
      slot := slot[name := |plans|];
      plans := plans + [PlanAnalytics(name, 0, 0.0, 0, 0, user.plan.value.planPrice)];
    }
    var k := slot[name];
    var stats := plans[k];
    stats := stats.(userCount := stats.userCount + 1,
                    averageFeeds := stats.averageFeeds + FeedCount(user) as real);
    if user.isTrialActive {
      stats := stats.(trialCount := stats.trialCount + 1);
    } else {
      stats := stats.(nonTrialCount := stats.nonTrialCount + 1);
    }
    assert stats == Bumped(plans[k], user);
    plans := plans[k := stats];
    if name in slot0 {
      StepExisting(pre, user, plans0, slot0);
    } else {
      assert plans == plans0 + [Bumped(PlanAnalytics(name, 0, 0.0, 0, 0, user.plan.value.planPrice), user)];
      StepNew(pre, user, plans0, slot0);
    }
  }

  /** The second `forEach`: every entry with users gets its feed sum replaced
      by the average rounded to hundredths; nothing else changes. */
  method FinalizePlans(raw: seq<PlanAnalytics>) returns (plans: seq<PlanAnalytics>)
    ensures |plans| == |raw|
    ensures forall k :: 0 <= k < |plans| ==> plans[k] == Finalize(raw[k])
  {
    plans := raw;
    var j := 0;
    while j < |plans|
      invariant 0 <= j <= |plans| == |raw|
      invariant forall k :: 0 <= k < j ==> plans[k] == Finalize(raw[k])
      invariant forall k :: j <= k < |plans| ==> plans[k] == raw[k]
    {
      var p := plans[j];
      if p.userCount > 0 {
        plans := plans[j := p.(averageFeeds := Round2(p.averageFeeds / p.userCount as real))];
      }
      j := j + 1;
    }
  }

  // ---------------------------------------------------------------------------
  // Per-plan grouping: what the result promises
  // ---------------------------------------------------------------------------

  /** An entry has at least one user and a non-empty name, its trial and
      non-trial counts split its user count, and the counts are those of the
      plan's group. */
  lemma PlanEntryCounts(users: seq<User>, k: nat)
    requires k < |PlanDistribution(users)|
    ensures var e := PlanDistribution(users)[k];
      && e.planName != ""
      && e.userCount >= 1
      && e.trialCount + e.nonTrialCount == e.userCount
      && e.userCount == |Group(users, e.planName)|
      && e.trialCount == TrialCount(Group(users, e.planName))
  {
    var name := PlanNames(users)[k];
    PlanDistributionAt(users, k);
    PlanNamesHasGroup(users, name);
    TallyMatchesGroup(users, name);
    TrialSplit(Group(users, name));
  }

  /** Exactly one entry per plan name that some user carries. */
  lemma PlanEntriesOnePerName(users: seq<User>, name: string)
    ensures var r := PlanDistribution(users);
      && (forall a, b :: 0 <= a < b < |r| ==> r[a].planName != r[b].planName)
      && ((exists k :: 0 <= k < |r| && r[k].planName == name)
          <==> (exists u :: u in users && BelongsTo(u, name)))
  {
    var r := PlanDistribution(users);
    var names := PlanNames(users);
    PlanNamesDistinct(users);
    PlanNamesHasGroup(users, name);
    forall k | 0 <= k < |names| ensures r[k].planName == names[k] {
      PlanDistributionAt(users, k);
    }
    if exists u :: u in users && BelongsTo(u, name) {
      var u :| u in users && BelongsTo(u, name);
      assert u in Group(users, name);
      var k :| 0 <= k < |names| && names[k] == name;
      assert r[k].planName == name;
    }
    if exists k :: 0 <= k < |r| && r[k].planName == name {
      var k :| 0 <= k < |r| && r[k].planName == name;
      assert names[k] == name;
      var u := Group(users, name)[0];
      assert u in Group(users, name);
    }
  }

  /** Entries come in first-seen order: a later entry's users all come after
      some user of every earlier entry. */
  lemma {:induction false} PlanEntriesFirstSeen(users: seq<User>, a: nat, b: nat, j: nat)
    requires a < b < |PlanDistribution(users)|
    requires j < |users| && BelongsTo(users[j], PlanDistribution(users)[b].planName)
    ensures exists i :: 0 <= i < j && BelongsTo(users[i], PlanDistribution(users)[a].planName)
  {
    PlanDistributionAt(users, a);
    PlanDistributionAt(users, b);
    PlanNamesFirstSeen(users, a, b, j);
  }

  /** An entry's price is the plan price of the first user of that plan. */
  lemma PlanEntryPrice(users: seq<User>, k: nat)
    requires k < |PlanDistribution(users)|
    ensures var e := PlanDistribution(users)[k];
      exists j :: 0 <= j < |users| && BelongsTo(users[j], e.planName)
        && (forall i :: 0 <= i < j ==> !BelongsTo(users[i], e.planName))
        && e.price == users[j].plan.value.planPrice
  {
    var name := PlanNames(users)[k];
    PlanDistributionAt(users, k);
    PlanNamesHasGroup(users, name);
    TallyMatchesGroup(users, name);
    GroupHeadIsFirst(users, name);
  }

  /** An entry's `averageFeeds` is the guarded, rounded average of the feed
      counts of its plan's users, as CalculateAverage computes it. */
  lemma PlanEntryAverage(users: seq<User>, k: nat)
    requires k < |PlanDistribution(users)|
    ensures var e := PlanDistribution(users)[k];
      var g := Group(users, e.planName);
      && |g| > 0
      && e.averageFeeds == Round2(FeedSum(g) as real / |g| as real)
      && e.averageFeeds == CalculateAverage(g, FeedsOf)
  {
    var name := PlanNames(users)[k];
    var g := Group(users, name);
    PlanDistributionAt(users, k);
    PlanNamesHasGroup(users, name);
    TallyMatchesGroup(users, name);
    SumOfFeeds(g);
  }

  /** No user is lost or counted twice: the user counts add up to the number
      of users that have a plan name. */
  lemma PlanTotalUsers(users: seq<User>)
    ensures TotalUserCount(PlanDistribution(users)) == CountWithPlan(users)
  {
    var r := PlanDistribution(users);
    var names := PlanNames(users);
    forall k | 0 <= k < |names| ensures r[k].userCount == Tally(users, names[k]).userCount {
      PlanDistributionAt(users, k);
    }
    TotalIsSumCounts(users, names, r);
    SumCountsOfNames(users);
  }

  // ---------------------------------------------------------------------------
  // Per-plan grouping: helper lemmas
  // ---------------------------------------------------------------------------

  lemma PlanNamesAppend(pre: seq<User>, u: User)
    ensures PlanNames(pre + [u])
         == if HasPlanName(u) && u.plan.value.planName !in PlanNames(pre)
            then PlanNames(pre) + [u.plan.value.planName]
            else PlanNames(pre)
  {
    assert (pre + [u])[..|pre|] == pre;
  }

  lemma GroupAppend(pre: seq<User>, u: User, name: string)
    ensures Group(pre + [u], name) == Group(pre, name) + (if BelongsTo(u, name) then [u] else [])
  {
    assert (pre + [u])[..|pre|] == pre;
  }

  lemma TallyAppend(pre: seq<User>, u: User, name: string)
    ensures Tally(pre + [u], name)
         == if !BelongsTo(u, name) then Tally(pre, name)
            else if Tally(pre, name).userCount == 0
            then Bumped(Tally(pre, name).(price := u.plan.value.planPrice), u)
            else Bumped(Tally(pre, name), u)
  {
    assert (pre + [u])[..|pre|] == pre;
  }

  /** A name is listed exactly when some user is grouped under it. */
  lemma {:induction false} PlanNamesHasGroup(users: seq<User>, name: string)
    ensures name in PlanNames(users) <==> Group(users, name) != []
  {
    if users != [] {
      var pre, last := users[..|users| - 1], users[|users| - 1];
      assert users == pre + [last];
      PlanNamesHasGroup(pre, name);
      PlanNamesAppend(pre, last);
      GroupAppend(pre, last, name);
    }
  }

  /** No plan name is listed twice. */
  lemma {:induction false} PlanNamesDistinct(users: seq<User>)
    ensures forall a, b :: 0 <= a < b < |PlanNames(users)| ==> PlanNames(users)[a] != PlanNames(users)[b]
  {
    if users != [] {
      var pre, last := users[..|users| - 1], users[|users| - 1];
      assert users == pre + [last];
      PlanNamesDistinct(pre);
      PlanNamesAppend(pre, last);
    }
  }

  /** Every listed plan name is carried by some user. */
  lemma PlanNamesWitness(users: seq<User>, n: string)
    requires n in PlanNames(users)
    ensures exists i :: 0 <= i < |users| && BelongsTo(users[i], n)
  {
    PlanNamesHasGroup(users, n);
    var u := Group(users, n)[0];
    assert u in Group(users, n);
    var i :| 0 <= i < |users| && users[i] == u;
  }

  lemma {:induction false} PlanNamesFirstSeen(users: seq<User>, a: nat, b: nat, j: nat)
    requires a < b < |PlanNames(users)|
    requires j < |users| && BelongsTo(users[j], PlanNames(users)[b])
    ensures exists i :: 0 <= i < j && BelongsTo(users[i], PlanNames(users)[a])
  {
    var pre, last := users[..|users| - 1], users[|users| - 1];
    assert users == pre + [last];
    var names, namesPre := PlanNames(users), PlanNames(pre);
    PlanNamesAppend(pre, last);
    var na, nb := names[a], names[b];
    if b < |namesPre| {
      assert namesPre[a] == na && namesPre[b] == nb;
      var j' := j;
      if j == |pre| {
        PlanNamesWitness(pre, nb);
        j' :| 0 <= j' < |pre| && BelongsTo(pre[j'], nb);
      } else {
        assert pre[j] == users[j];
      }
      PlanNamesFirstSeen(pre, a, b, j');
      var i :| 0 <= i < j' && BelongsTo(pre[i], na);
      assert users[i] == pre[i];
    } else {
      assert nb !in namesPre;
      PlanNamesHasGroup(pre, nb);
      if j < |pre| {
        assert false;
      }
      assert na in namesPre;
      PlanNamesWitness(pre, na);
      var i :| 0 <= i < |pre| && BelongsTo(pre[i], na);
      assert users[i] == pre[i];
    }
  }

  lemma {:induction false} TrialSplit(g: seq<User>)
    ensures TrialCount(g) + NonTrialCount(g) == |g|
  {
    if g != [] {
      TrialSplit(g[..|g| - 1]);
    }
  }

  lemma CountsAppend(g: seq<User>, u: User)
    ensures FeedSum(g + [u]) == FeedSum(g) + FeedCount(u)
    ensures TrialCount(g + [u]) == TrialCount(g) + (if u.isTrialActive then 1 else 0)
    ensures NonTrialCount(g + [u]) == NonTrialCount(g) + (if u.isTrialActive then 0 else 1)
  {
    assert (g + [u])[..|g|] == g;
  }

  /** The folded tally is the statistics of the plan's group: its size, feed
      sum, trial split and the price of its first user. */
  lemma TallyMatchesGroup(users: seq<User>, name: string)
    ensures Tally(users, name).planName == name
    ensures Tally(users, name).userCount == |Group(users, name)|
    ensures Tally(users, name).averageFeeds == FeedSum(Group(users, name)) as real
    ensures Tally(users, name).trialCount == TrialCount(Group(users, name))
    ensures Tally(users, name).nonTrialCount == NonTrialCount(Group(users, name))
    ensures Group(users, name) != [] ==>
              BelongsTo(Group(users, name)[0], name)
              && Tally(users, name).price == Group(users, name)[0].plan.value.planPrice
  {
    TallyCounts(users, name);
    TallyFeeds(users, name);
    TallyPrice(users, name);
  }

  lemma {:induction false} TallyCounts(users: seq<User>, name: string)
    ensures Tally(users, name).planName == name
    ensures Tally(users, name).userCount == |Group(users, name)|
    ensures Tally(users, name).trialCount == TrialCount(Group(users, name))
    ensures Tally(users, name).nonTrialCount == NonTrialCount(Group(users, name))
  {
    if users != [] {
      var pre, last := users[..|users| - 1], users[|users| - 1];
      TallyCounts(pre, name);
      var g := Group(pre, name);
      if BelongsTo(last, name) {
        assert Group(users, name) == g + [last];
        CountsAppend(g, last);
      } else {
        assert Group(users, name) == g;
      }
    } else {
      assert Group(users, name) == [];
      assert TrialCount([]) == 0 && NonTrialCount([]) == 0;
    }
  }

  lemma {:induction false} TallyFeeds(users: seq<User>, name: string)
    ensures Tally(users, name).averageFeeds == FeedSum(Group(users, name)) as real
  {
    if users != [] {
      var pre, last := users[..|users| - 1], users[|users| - 1];
      TallyFeeds(pre, name);
      var g := Group(pre, name);
      if BelongsTo(last, name) {
        assert Group(users, name) == g + [last];
        CountsAppend(g, last);
      } else {
        assert Group(users, name) == g;
      }
    } else {
      assert Group(users, name) == [];
      assert FeedSum([]) == 0;
    }
  }

  lemma {:induction false} TallyPrice(users: seq<User>, name: string)
    ensures Group(users, name) != [] ==>
              BelongsTo(Group(users, name)[0], name)
              && Tally(users, name).price == Group(users, name)[0].plan.value.planPrice
  {
    if users != [] {
      var pre, last := users[..|users| - 1], users[|users| - 1];
      TallyPrice(pre, name);
      TallyCounts(pre, name);
      var g := Group(pre, name);
      if BelongsTo(last, name) {
        assert Group(users, name) == g + [last];
        if g != [] {
          assert (g + [last])[0] == g[0];
        } else {
          assert (g + [last])[0] == last;
        }
      } else {
        assert Group(users, name) == g;
      }
    }
  }

  /** Before its first user a plan's tally is the empty entry. */
  lemma {:induction false} TallyUnborn(users: seq<User>, name: string)
    requires Tally(users, name).userCount == 0
    ensures Tally(users, name) == PlanAnalytics(name, 0, 0.0, 0, 0, 0.0)
  {
    if users != [] {
      TallyUnborn(users[..|users| - 1], name);
    }
  }

  /** Entry k of the result is the finalised tally of the k-th listed name. */
  lemma PlanDistributionAt(users: seq<User>, k: nat)
    requires k < |PlanNames(users)|
    ensures |PlanDistribution(users)| == |PlanNames(users)|
    ensures PlanDistribution(users)[k] == Finalize(Tally(users, PlanNames(users)[k]))
    ensures PlanDistribution(users)[k].planName == PlanNames(users)[k]
  {
    TallyMatchesGroup(users, PlanNames(users)[k]);
  }

  /** The group's first user is the first user of the plan in the input. */
  lemma {:induction false} GroupHeadIsFirst(users: seq<User>, name: string)
    requires Group(users, name) != []
    ensures exists j :: 0 <= j < |users| && users[j] == Group(users, name)[0]
              && BelongsTo(users[j], name)
              && (forall i :: 0 <= i < j ==> !BelongsTo(users[i], name))
  {
    var pre, last := users[..|users| - 1], users[|users| - 1];
    var g := Group(pre, name);
    var j: int;
    if g != [] {
      GroupHeadIsFirst(pre, name);
      j :| 0 <= j < |pre| && pre[j] == g[0] && BelongsTo(pre[j], name)
           && (forall i :: 0 <= i < j ==> !BelongsTo(pre[i], name));
      assert Group(users, name)[0] == g[0] == users[j];
    } else {
      j := |pre|;
      assert Group(users, name) == [last];
      forall i | 0 <= i < j ensures !BelongsTo(pre[i], name) {
        assert pre[i] in pre;
      }
      assert users[j] == last;
    }
    assert forall i :: 0 <= i < j ==> users[i] == pre[i];
  }

  lemma {:induction false} SumOfFeeds(g: seq<User>)
    ensures SumOf(g, FeedsOf) == FeedSum(g) as real
  {
    if g != [] {
      SumOfFeeds(g[..|g| - 1]);
    }
  }

  /** The sum over `names` of the user count of each name's tally. */
  ghost function SumCounts(users: seq<User>, names: seq<string>): nat
  {
    if names == [] then 0
    else SumCounts(users, names[..|names| - 1]) + Tally(users, names[|names| - 1]).userCount
  }

  lemma {:induction false} TotalIsSumCounts(users: seq<User>, names: seq<string>, plans: seq<PlanAnalytics>)
    requires |plans| == |names|
    requires forall k :: 0 <= k < |plans| ==> plans[k].userCount == Tally(users, names[k]).userCount
    ensures TotalUserCount(plans) == SumCounts(users, names)
  {
    if plans != [] {
      var m := |plans| - 1;
      TotalIsSumCounts(users, names[..m], plans[..m]);
    }
  }

  lemma {:induction false} SumCountsAppendUser(pre: seq<User>, u: User, names: seq<string>)
    requires forall a, b :: 0 <= a < b < |names| ==> names[a] != names[b]
    ensures SumCounts(pre + [u], names)
         == SumCounts(pre, names) + (if HasPlanName(u) && u.plan.value.planName in names then 1 else 0)
  {
    if names != [] {
      var init, m := names[..|names| - 1], names[|names| - 1];
      assert names == init + [m];
      SumCountsAppendUser(pre, u, init);
      TallyAppend(pre, u, m);
      if HasPlanName(u) && u.plan.value.planName == m {
        assert m !in init;
      }
    }
  }

  lemma {:induction false} SumCountsOfNames(users: seq<User>)
    ensures SumCounts(users, PlanNames(users)) == CountWithPlan(users)
  {
    if users != [] {
      var pre, last := users[..|users| - 1], users[|users| - 1];
      assert users == pre + [last];
      var namesPre := PlanNames(pre);
      SumCountsOfNames(pre);
      PlanNamesAppend(pre, last);
      PlanNamesDistinct(pre);
      SumCountsAppendUser(pre, last, namesPre);
      if HasPlanName(last) && last.plan.value.planName !in namesPre {
        var name := last.plan.value.planName;
        var names := namesPre + [name];
        assert names[..|names| - 1] == namesPre;
        PlanNamesHasGroup(pre, name);
        TallyMatchesGroup(pre, name);
        TallyAppend(pre, last, name);
      }
    }
  }

  lemma SlotsInsert(names: seq<string>, slot: map<string, nat>, name: string)
    requires SlotsAgree(names, slot) && name !in names
    ensures SlotsAgree(names + [name], slot[name := |names|])
  {
    var names', slot' := names + [name], slot[name := |names|];
    forall n | n in slot'
      ensures slot'[n] < |names'| && names'[slot'[n]] == n
    {
      if n != name {
        assert names'[slot[n]] == names[slot[n]];
      }
    }
  }

  /** Replacing the entry of the user's own plan by its new tally re-establishes
      the agreement: every other listed plan keeps its tally. */
  lemma TalliesBump(pre: seq<User>, u: User, names: seq<string>, plans: seq<PlanAnalytics>,
                    k0: nat, stats: PlanAnalytics)
    requires |plans| == |names|
    requires forall k :: 0 <= k < |plans| && k != k0 ==> plans[k] == Tally(pre, names[k])
    requires forall a, b :: 0 <= a < b < |names| ==> names[a] != names[b]
    requires HasPlanName(u) && k0 < |names| && names[k0] == u.plan.value.planName
    requires stats == Tally(pre + [u], u.plan.value.planName)
    ensures TalliesAgree(pre + [u], names, plans[k0 := stats])
  {
    forall k | 0 <= k < |plans| && k != k0
      ensures plans[k] == Tally(pre + [u], names[k])
    {
      TallyAppend(pre, u, names[k]);
    }
  }

  /** The first pass over one user without a plan name changes nothing. */
  lemma StepSkip(pre: seq<User>, u: User, plans: seq<PlanAnalytics>, slot: map<string, nat>)
    requires SlotsAgree(PlanNames(pre), slot) && TalliesAgree(pre, PlanNames(pre), plans)
    requires !HasPlanName(u)
    ensures SlotsAgree(PlanNames(pre + [u]), slot) && TalliesAgree(pre + [u], PlanNames(pre + [u]), plans)
  {
    PlanNamesAppend(pre, u);
    forall k | 0 <= k < |plans|
      ensures plans[k] == Tally(pre + [u], PlanNames(pre)[k])
    {
      TallyAppend(pre, u, PlanNames(pre)[k]);
    }
  }

  /** The first pass over one user of an already listed plan: its entry
      comes to hold the plan's new tally. */
  lemma StepExisting(pre: seq<User>, u: User, plans: seq<PlanAnalytics>, slot: map<string, nat>)
    requires SlotsAgree(PlanNames(pre), slot) && TalliesAgree(pre, PlanNames(pre), plans)
    requires HasPlanName(u) && u.plan.value.planName in slot
    ensures slot[u.plan.value.planName] < |plans|
    ensures SlotsAgree(PlanNames(pre + [u]), slot)
    ensures TalliesAgree(pre + [u], PlanNames(pre + [u]),
                         plans[slot[u.plan.value.planName] := Bumped(plans[slot[u.plan.value.planName]], u)])
  {
    var name := u.plan.value.planName;
    var names := PlanNames(pre);
    var k := slot[name];
    PlanNamesAppend(pre, u);
    assert PlanNames(pre + [u]) == names;
    PlanNamesHasGroup(pre, name);
    TallyCounts(pre, name);
    assert plans[k] == Tally(pre, name);
    TallyAppend(pre, u, name);
    PlanNamesDistinct(pre);
    TalliesBump(pre, u, names, plans, k, Bumped(plans[k], u));
  }

  /** The first pass over the first user of a plan: a new entry is appended
      and holds the plan's tally of that one user. */
  lemma StepNew(pre: seq<User>, u: User, plans: seq<PlanAnalytics>, slot: map<string, nat>)
    requires SlotsAgree(PlanNames(pre), slot) && TalliesAgree(pre, PlanNames(pre), plans)
    requires HasPlanName(u) && u.plan.value.planName !in slot
    ensures SlotsAgree(PlanNames(pre + [u]), slot[u.plan.value.planName := |plans|])
    ensures TalliesAgree(pre + [u], PlanNames(pre + [u]),
                         plans + [Bumped(PlanAnalytics(u.plan.value.planName, 0, 0.0, 0, 0, u.plan.value.planPrice), u)])
  {
    var name := u.plan.value.planName;
    var names := PlanNames(pre);
    var entry := Bumped(PlanAnalytics(name, 0, 0.0, 0, 0, u.plan.value.planPrice), u);
    PlanNamesAppend(pre, u);
    assert PlanNames(pre + [u]) == names + [name];
    PlanNamesHasGroup(pre, name);
    TallyCounts(pre, name);
    TallyUnborn(pre, name);
    TallyAppend(pre, u, name);
    assert entry == Tally(pre + [u], name);
    SlotsInsert(names, slot, name);
    PlanNamesDistinct(pre + [u]);
    TalliesBump(pre, u, names + [name], plans + [entry], |plans|, entry);
    assert (plans + [entry])[|plans| := entry] == plans + [entry];
  }
}
