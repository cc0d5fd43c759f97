/** Record shapes shared by the analytics helpers: the subset of a user
    document the helpers read, the populated plan, and the two result
    records (per-plan statistics and a current/previous comparison). */
module AnalyticsTypes {
  import opened Wrappers

  /** The populated `plan_id` reference: only the two fields the helpers read. */
  datatype Plan = Plan(planName: string, planPrice: real)

  /** A user record as the helpers see it.
      - `plan` is None when the reference is absent or not populated;
      - `feeds` is the length of the `feeds` list, None when the list is missing;
      - `dateCreated` is the creation instant in milliseconds, None when it is
        absent or does not parse to a valid date; a `null` date is the
        instant 0. */
  datatype User = User(
    email: string,
    plan: Option<Plan>,
    feeds: Option<nat>,
    isTrialActive: bool,
    dateCreated: Option<int>
  )

  /** Per-plan statistics; during aggregation `averageFeeds` temporarily holds
      the running feed sum. */
  datatype PlanAnalytics = PlanAnalytics(
    planName: string,
    userCount: nat,
    averageFeeds: real,
    trialCount: nat,
    nonTrialCount: nat,
    price: real
  )

  /** A measurement in the current window, the same measurement in the
      previous window, and the rounded percentage change between them. */
  datatype MetricComparison = MetricComparison(current: real, previous: real, percentageChange: int)

  /** The number of feeds a user contributes: a missing list counts as 0. */
  function FeedCount(u: User): nat
  {
    match u.feeds
    case Some(n) => n
    case None => 0
  }

  /** True when the user has a populated plan with a non-empty name. */
  predicate HasPlanName(u: User)
  {
    u.plan.Some? && u.plan.value.planName != ""
  }

  /** True when the user is grouped under plan name `name`. */
  predicate BelongsTo(u: User, name: string)
  {
    HasPlanName(u) && u.plan.value.planName == name
  }
}
