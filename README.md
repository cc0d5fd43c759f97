# Analytics helpers and the dummy e-mail classifier, in Dafny

This project models two pieces of pure computation from a NestJS analytics
back end and proves properties about them.

- **The aggregation helpers** (`src/analytics/helpers/analytics.helper.ts`):
  - `calculatePercentageChange`, with its zero-baseline special case;
  - the `MetricComparison` builder;
  - `calculatePlanAnalytics`, which groups users by plan name in one pass
    over a `Map` and then finalises each entry's average in a second pass;
  - the inclusive creation-date filter;
  - the guarded, rounded average.
- **The dummy/test e-mail classifier** `isDummyEmail`
  (`src/shared/utils/email.util.ts`). It lower-cases an address and flags it
  for any one of four reasons:
  - the address is blacklisted;
  - a keyword occurs in the local part;
  - the domain is exactly one of the listed domains;
  - the local part starts with a numbered prefix such as `user1`.

Files:

- `wrappers.dfy` holds the `Option` type.
- `analytics_types.dfy` (module `AnalyticsTypes`) holds the records:
  - `User`, the fields of a user document that the helpers read;
  - `Plan`;
  - `PlanAnalytics` and `MetricComparison`, the shapes declared in
    `src/analytics/types/user-analytics.type.ts:1-14`.
- `analytics_helper.dfy` (module `AnalyticsHelper`) holds the helpers.
- `email_util.dfy` (module `EmailUtil`) holds the classifier.

Modelling choices:

- **Numbers.** Numbers are exact reals.
  - `Math.round(x)` is `RoundHalfUp`, which is `floor(x + 1/2)`.
  - `Math.round(x * 100) / 100` is `Round2`.
- **Users.**
  - A user's feed count is optional; a missing `feeds` list counts as 0.
  - The creation date is an optional integer instant. `None` stands for a
    date that is absent (`undefined`) or does not parse, and such a user is
    never kept by the filter. A date stored as `null` is the instant 0,
    because `new Date(null)` is the epoch, so it is `Some(0)`.
- **Plan grouping.**
  - `calculatePlanAnalytics` is the method `CalculatePlanAnalytics`.
    - Its first loop mirrors the `forEach` callback in `AddUser`, which has
      the same skip, insert and increment steps.
    - The `Map` is a sequence of entries in insertion order, plus a map from
      plan name to position. These stand for `has`, `get` and `set`.
    - Its second loop, `FinalizePlans`, overwrites `averageFeeds` in place.
  - The method is proved equal to `PlanDistribution`, a reference
    definition with three parts:
    - `PlanNames`, the distinct plan names in first-seen order;
    - `Tally`, a fold giving one plan's entry after the first pass;
    - `Finalize`, the second pass.
  - `Tally` is linked to `Group` (the users of one plan, in order) by
    `TallyMatchesGroup`. The lemmas about the result are stated in terms of
    `Group`.
- **The classifier.**
  - The classifier `isDummyEmail` is `IsDummyEmail`.
    - It takes the blacklist as a parameter.
    - It keeps the keyword list, the domain list and the four numbered
      prefixes as constants, copied from `src/shared/utils/email.util.ts:17-38,52`.
  - `split('@')` is `Split`. It comes with `Join`, and with round trips in
    both directions.
    - The local part is the first piece.
    - The domain is the second piece, or `None` when there is no '@'. A
      missing domain never matches the domain list.
  - `includes` on strings is `Includes`. It is characterised by the
    existence of an occurrence.
  - The regular expression `^(test|user|temp|dummy)\d+` tests the local
    part. It is `IsNumbered`: one of the four prefixes followed by a digit.
    Further digits cannot change whether the pattern matches.
  - `NumberedIsKeywordOrUser` shows that `test`, `temp` and `dummy` are
    keywords too. So the numbered check only ever adds local parts that
    start with `user` and a digit.

Two details of the source that the model keeps:

- A user with an empty plan name is skipped too, because `!plan?.plan_name`
  is true for "" (`src/analytics/helpers/analytics.helper.ts:27`).
- `date_created` is optional (`date_created?: Date`,
  `src/analytics/schemas/user.schema.ts:30-31`). An absent or unparseable
  value gives an invalid `Date`, which both comparisons at
  `src/analytics/helpers/analytics.helper.ts:62` reject, so that user is
  never kept.

## Model

| member | source | states |
|---|---|---|
| AnalyticsHelper.RoundHalfUp | src/analytics/helpers/analytics.helper.ts:11 | `Math.round` returns the integer r with r - 1/2 <= x < r + 1/2 |
| AnalyticsHelper.RoundHalfUpUnique | src/analytics/helpers/analytics.helper.ts:11 | any integer within that half-open interval of x is the rounded value, so rounding is determined |
| AnalyticsHelper.Round2 | src/analytics/helpers/analytics.helper.ts:52 | rounding to two decimals moves the value by at most half a hundredth and yields a whole number of hundredths |
| AnalyticsHelper.Round2Monotone | src/analytics/helpers/analytics.helper.ts:52 | rounding to two decimals preserves order |
| AnalyticsHelper.Round2Idempotent | src/analytics/helpers/analytics.helper.ts:52 | rounding an already rounded value changes nothing |
| AnalyticsHelper.PercentageChange | src/analytics/helpers/analytics.helper.ts:9-12 | with previous = 0 the result is 0 when current = 0 and 100 otherwise; otherwise it is the nearest integer to (current - previous) / previous * 100, a half rounded up |
| AnalyticsHelper.PercentageUnchanged | src/analytics/helpers/analytics.helper.ts:10-11 | equal measurements give 0, from any baseline |
| AnalyticsHelper.PercentageDoubled | src/analytics/helpers/analytics.helper.ts:11 | current = 2 * previous (previous non-zero) gives exactly 100 |
| AnalyticsHelper.PercentageVanished | src/analytics/helpers/analytics.helper.ts:11 | dropping to 0 from a non-zero baseline gives exactly -100 |
| AnalyticsHelper.PercentageSign | src/analytics/helpers/analytics.helper.ts:11 | from a positive baseline a rise never gives a negative change and a fall never gives a positive one |
| AnalyticsHelper.CreateMetricComparison | src/analytics/helpers/analytics.helper.ts:14-20 | current and previous are copied unchanged and the percentage change satisfies the comparison invariant |
| AnalyticsHelper.ConsistentComparisonUnique | src/analytics/helpers/analytics.helper.ts:14-20 | two records satisfying the invariant with the same measurements are equal, so the built record is the only consistent one |
| AnalyticsHelper.FilterUsersByDateRange | src/analytics/helpers/analytics.helper.ts:59-64 | a user is in the result iff it is in the input and has a valid creation instant with start <= instant <= end; the result is no longer than the input |
| AnalyticsHelper.FilterIsSubsequence | src/analytics/helpers/analytics.helper.ts:60 | the result is an order-preserving subsequence of the input |
| AnalyticsHelper.FilterAppend | src/analytics/helpers/analytics.helper.ts:60-63 | filtering a concatenation is the concatenation of the filtered parts |
| AnalyticsHelper.FilterIdempotent | src/analytics/helpers/analytics.helper.ts:59-64 | filtering twice with the same range equals filtering once |
| AnalyticsHelper.FilterDisjointRanges | src/analytics/helpers/analytics.helper.ts:61-62 | two non-overlapping ranges never both return the same user |
| AnalyticsHelper.FilterAbuttingRanges | src/analytics/helpers/analytics.helper.ts:61-62 | splitting [start, end] into [start, mid] and [mid + 1, end] splits the result as a multiset, with no loss and no double counting |
| AnalyticsHelper.CalculateAverage | src/analytics/helpers/analytics.helper.ts:66-70 | an empty list gives 0; otherwise the result is the mean of the getter's values rounded to two decimals, within half a hundredth of the mean |
| AnalyticsHelper.SumOfBounds | src/analytics/helpers/analytics.helper.ts:68 | if every value lies in [lo, hi], the reduce sum lies in [lo * n, hi * n] |
| AnalyticsHelper.AverageWithinBounds | src/analytics/helpers/analytics.helper.ts:66-70 | for a non-empty list whose values lie in [lo, hi], the average lies in [Round2(lo), Round2(hi)] |
| AnalyticsHelper.Group | src/analytics/helpers/analytics.helper.ts:27-40 | the users grouped under a name are exactly the input users with a non-empty plan name equal to it |
| AnalyticsHelper.CalculatePlanAnalytics | src/analytics/helpers/analytics.helper.ts:22-57 | the two passes return exactly PlanDistribution(users): one finalised entry per distinct plan name, in insertion order |
| AnalyticsHelper.AccumulatePlans | src/analytics/helpers/analytics.helper.ts:25-48 | after the first pass there is one entry per first-seen plan name, and each entry is the plan's tally over all users |
| AnalyticsHelper.AddUser | src/analytics/helpers/analytics.helper.ts:26-47 | one callback step keeps the accumulator in step: the name index and the entries become those of the users seen so far plus this one |
| AnalyticsHelper.FinalizePlans | src/analytics/helpers/analytics.helper.ts:50-54 | every entry with users gets its feed sum replaced by Round2(sum / userCount); all other fields and entries are unchanged |
| AnalyticsHelper.TallyMatchesGroup | src/analytics/helpers/analytics.helper.ts:29-47 | after the first pass, the entry for a name holds that plan's user count, feed sum, trial and non-trial counts, and the first user's price |
| AnalyticsHelper.PlanEntryCounts | src/analytics/helpers/analytics.helper.ts:29-47 | every entry has a non-empty name, userCount >= 1, trialCount + nonTrialCount == userCount, and the counts of its plan's users |
| AnalyticsHelper.PlanEntriesOnePerName | src/analytics/helpers/analytics.helper.ts:27-38 | entry names are distinct, and a name has an entry iff some user has that plan name |
| AnalyticsHelper.PlanEntriesFirstSeen | src/analytics/helpers/analytics.helper.ts:29-38 | entries are in first-seen order: every user of a later entry comes after some user of each earlier entry |
| AnalyticsHelper.PlanEntryPrice | src/analytics/helpers/analytics.helper.ts:29-38 | an entry's price is the plan price of the first user with that plan name |
| AnalyticsHelper.PlanEntryAverage | src/analytics/helpers/analytics.helper.ts:42-54 | an entry's averageFeeds is Round2 of its users' feed sum (a missing list counting 0) over their number, the same value CalculateAverage gives |
| AnalyticsHelper.PlanTotalUsers | src/analytics/helpers/analytics.helper.ts:27-47 | the user counts of all entries add up to the number of users with a plan name |
| EmailUtil.Lower | src/shared/utils/email.util.ts:9 | lower-casing keeps the length and maps each character on its own: 'A'..'Z' become 'a'..'z', every other character is kept, and no upper-case ASCII letter is left |
| EmailUtil.LowerFixesLowercase | src/shared/utils/email.util.ts:9 | a string with no upper-case letter is unchanged by lower-casing |
| EmailUtil.LowerIdempotent | src/shared/utils/email.util.ts:9 | lower-casing twice is lower-casing once |
| EmailUtil.LowerKeepsAt | src/shared/utils/email.util.ts:9 | lower-casing neither adds nor removes an '@' |
| EmailUtil.Split | src/shared/utils/email.util.ts:41 | `split('@')` gives at least one piece and no piece contains '@' |
| EmailUtil.JoinSplit | src/shared/utils/email.util.ts:41 | joining the pieces with '@' gives back the string |
| EmailUtil.SplitJoin | src/shared/utils/email.util.ts:41 | splitting a join of '@'-free pieces gives back the pieces |
| EmailUtil.LocalPartIsPrefix | src/shared/utils/email.util.ts:41 | the local part is the prefix before the first '@', or the whole string when there is none |
| EmailUtil.AtFreePrefixInLocalPart | src/shared/utils/email.util.ts:41 | every '@'-free prefix of the address lies inside the local part |
| EmailUtil.DomainAbsentIff | src/shared/utils/email.util.ts:41 | the domain is absent iff the address contains no '@' |
| EmailUtil.ParseAddress | src/shared/utils/email.util.ts:41 | for `l@d` or `l@d@...` with l and d '@'-free, the local part is l and the domain is d |
| EmailUtil.IncludesIff | src/shared/utils/email.util.ts:42 | `includes` holds iff the pattern occurs at some position |
| EmailUtil.IsDummyEmail | src/shared/utils/email.util.ts:8-56 | the verdict is true exactly when the lower-cased address is blacklisted, or its local part has a keyword, or its domain is listed, or its local part starts with a numbered prefix and a digit |
| EmailUtil.DummyIgnoresCase | src/shared/utils/email.util.ts:9 | an address and its lower-cased form get the same verdict |
| EmailUtil.KeywordFlags | src/shared/utils/email.util.ts:41-44 | a keyword occurring before the first '@' of the lower-cased address makes it dummy |
| EmailUtil.DomainFlags | src/shared/utils/email.util.ts:47-49 | a listed domain right after the first '@', up to the next '@' or the end, makes it dummy |
| EmailUtil.NumberedFlags | src/shared/utils/email.util.ts:52-54 | an address starting with test, user, temp or dummy followed by a digit is dummy |
| EmailUtil.NoAtSignNoDomain | src/shared/utils/email.util.ts:41-49 | without an '@' there is no domain, and only the blacklist, keyword and numbered checks decide, applied to the whole address |
| EmailUtil.NumberedIsKeywordOrUser | src/shared/utils/email.util.ts:52 | a local part that passes the numbered check has a keyword or starts with "user" and a digit |
| EmailUtil.KeywordExample | src/shared/utils/email.util.ts:42-44 | "mytestacct@x.io" is dummy |
| EmailUtil.NumberedExample | src/shared/utils/email.util.ts:52-54 | "user123@gmail.com" is dummy |
| EmailUtil.SubdomainExample | src/shared/utils/email.util.ts:47-49 | "qa@a.test.com" is not dummy with an empty blacklist: the domain check is exact, with no suffix match |

## Left out

- Floating point: all arithmetic is on exact reals. The IEEE-754 effects
  of `/` and of `Math.round(x * 100) / 100` are not modelled.
- Date parsing: `new Date(user.date_created)` is an optional integer
  instant, with `None` for an absent or unparseable date and `Some(0)` for
  `null`. Mapping a stored value to its instant is left to the caller. In
  `filterUsersByDateRange` the range ends are integers too.
- The `valueGetter` of `calculateAverage` is a total function from users to
  reals. A getter with side effects is not modelled.
- Lower-casing covers ASCII letters only. Unicode `toLowerCase` is not
  modelled.
- Regular expressions are not modelled in general. `IsNumbered` encodes the
  one pattern the classifier uses.
- `BLACKLISTED_EMAILS`: the constant file is not part of this model, so the
  blacklist is a parameter of `IsDummyEmail`.
- `calculatePlanAnalytics` returns a JavaScript `Map`. The model returns its
  entries as a sequence in the `Map`'s iteration (insertion) order. Object
  identity of the entries and aliasing through the `Map` are not modelled.
- The services, controllers, modules, schemas, the blacklist-filtering
  decorator and the bootstrap code are left out. They are database queries,
  HTTP routing and dependency-injection wiring, with no logic of their own
  beyond a database query, a status-code mapping (404 for no users, 500 for
  an exception, `src/users/users.service.ts:30-50`) and a one-line
  blacklist filter (`src/shared/decorators/filter-blacklisted-users.decorator.ts:9-10`).
- Retention classification, the daily distribution, the time-window
  boundaries and report assembly are not modelled. They do not appear in
  any of the source files this model follows.
