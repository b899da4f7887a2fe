# Ride-hailing analytics dashboard: window-function queries

This project models the analytics SQL in `analytics_dashboard.py`. The dashboard reads a star
schema of rides (`fact_rides`) and their drivers and customers. It reports on drivers and
customers through ten queries, each built on one SQL window function:

- `ROW_NUMBER` for the efficiency leaderboard
- `RANK` for revenue tiers
- `DENSE_RANK` for quality tiers
- `PERCENT_RANK` for commission tiers
- `CUME_DIST` for efficiency quartiles
- `NTILE` for customer segments
- `LEAD` for churn risk
- `FIRST_VALUE` for fare progression
- `LAST_VALUE` for quality trends
- `NTH_VALUE` for lifecycle milestones

It also models the milestone funnel that the dashboard counts from the last query's result.

The model is pure. Each query is a Dafny function from the rows it reads to the rows it
returns.

- A table row is a `datatype`.
- SQL `NULL` is `Option`.
- Times are whole seconds, as `int`.
- Fares, waits, distances and ratings are exact `real`s.
- Every `CASE` label is a constructor carrying its exact label text.

The modules follow the layers of the SQL:

- `Sql` (`sql.dfy`): `NULLIF`, `ROUND` (half away from zero), `SUM`, `AVG` and `COUNT`. Also
  `WHERE` as `Filter`, `GROUP BY` as `GroupBy`, `HAVING` and `LIMIT`.
- `Ordering` (`ordering.dfy`): `ORDER BY` on one key, as a stable insertion sort. Rows whose keys
  are equal keep their input order, and `SortStable` proves that.
- `Ranking` (`ranking.dfy`): the ranking functions over a window in `ORDER BY` order. Each is
  computed by a scan over the rows, as a database computes it. Each is proved equal to its
  definition by counting: rows strictly ahead, rows up to and including the current row's
  peers, or distinct keys ahead. `NTILE` is defined by its bucket boundaries.
- `Positional` (`positional.dfy`): window frames, and `LEAD`, `FIRST_VALUE`, `LAST_VALUE` and
  `NTH_VALUE`.
- `Tiers` (`tiers.dfy`): the `CASE` expressions. Each classifier's contract gives, for every
  label, the exact range of inputs that produces it.
- `Dashboard` (`dashboard.dfy`): the queries. Each query function takes the rows of its
  aggregate CTE, so that the window and `CASE` logic can be stated on its own. Each query also
  has a wrapper that builds those rows from the raw rides (`DriverLeaderboard`,
  `RevenueTierRanks` and so on).

## Model

| member | source | states |
|---|---|---|
| Sql.HalfAwayFromZero | analytics_dashboard.py:568 | rounding to a whole number gives the nearest one, a tie going away from zero |
| Sql.Round2 | analytics_dashboard.py:1010-1015 | `ROUND(x, 2)` is the multiple of 0.01 nearest `x`, ties away from zero, so within 0.005 of `x` |
| Sql.Round2Difference | analytics_dashboard.py:1026 | the difference of two values already rounded to two places is unchanged by `ROUND(…, 2)` |
| Sql.RoundMonotone | analytics_dashboard.py:568 | rounding never reverses the order of two values |
| Sql.Round3 | analytics_dashboard.py:568 | `ROUND(x, 3)` is the multiple of 0.001 nearest `x`, ties away from zero, so within 0.0005 of `x` |
| Sql.Divide | analytics_dashboard.py:434 | the quotient times the divisor is the dividend |
| Sql.DivideOrNull | analytics_dashboard.py:577 | division by `NULLIF(y, 0)` is NULL exactly when `y` is 0, and otherwise the exact quotient |
| Sql.Avg | analytics_dashboard.py:368 | `AVG` is NULL exactly on no rows; otherwise it times the row count is the sum |
| Sql.AvgBetween | analytics_dashboard.py:379 | an average lies between every lower and upper bound of its values |
| Sql.Values | analytics_dashboard.py:489 | dropping NULLs keeps at most as many values, and with no NULL keeps every value in place |
| Sql.ValuesAppend | analytics_dashboard.py:489 | dropping NULLs from two lists one after the other keeps both orders: the result is the two results joined |
| Sql.ValuesMembers | analytics_dashboard.py:489 | a value survives dropping NULLs exactly when it was present |
| Sql.Filter | analytics_dashboard.py:493 | `WHERE` keeps exactly the rows meeting the condition, without adding duplicates |
| Sql.FilterSnoc | analytics_dashboard.py:493 | appending a row to the input appends it to the output exactly when it meets the condition, so the kept rows stay in input order |
| Sql.FilterAppend | analytics_dashboard.py:493 | `WHERE` over two lists joined is the two results joined |
| Sql.FilterNarrower | analytics_dashboard.py:868 | a `WHERE` that implies an earlier one makes the earlier one redundant |
| Sql.FilterFlatten | analytics_dashboard.py:954-967 | `WHERE` over partitions put together is the partitions' own `WHERE` results put together, in partition order |
| Sql.FilterDropsLast | analytics_dashboard.py:891-892 | when only the last row fails the condition, `WHERE` drops exactly that row |
| Sql.CountWhere | analytics_dashboard.py:422 | a `COUNT` over the rows with a given key is at most the row count |
| Sql.CountWherePositive | analytics_dashboard.py:422 | a key's count is positive exactly when some row carries the key |
| Sql.CountWhereMonotone | analytics_dashboard.py:1159-1164 | a condition implied by another is met by at least as many rows |
| Sql.CountWhereAll | analytics_dashboard.py:1160 | a condition every row meets counts every row |
| Sql.GroupBy | analytics_dashboard.py:427 | `GROUP BY` gives one non-empty group per key, with distinct keys, holding exactly that key's rows in input order, its size being the key's count |
| Sql.RowsWithKey | analytics_dashboard.py:427 | the rows carrying a key are exactly those of the input with that key, as many as the key's count |
| Sql.GroupByKeys | analytics_dashboard.py:427 | a key has a group exactly when some row carries it |
| Sql.GroupByCovers | analytics_dashboard.py:427 | every row's key has a group |
| Sql.HavingAtLeast | analytics_dashboard.py:495 | `HAVING COUNT(*) >= n` keeps exactly the groups of at least `n` rows |
| Sql.HavingKeeps | analytics_dashboard.py:495 | a key with at least `n` rows keeps its group |
| Sql.Flatten | analytics_dashboard.py:863-869 | the rows of all partitions together are exactly the rows of some partition; one partition is returned unchanged |
| Sql.FlattenAppend | analytics_dashboard.py:863-869 | putting partitions together keeps their order: two lists of partitions joined give the two results joined |
| Sql.Limit | analytics_dashboard.py:382 | `LIMIT n` keeps the first `min(n, count)` rows |
| Ordering.SortBy | analytics_dashboard.py:375 | `ORDER BY` returns a permutation of its input in key order |
| Ordering.SortMembers | analytics_dashboard.py:381 | sorting neither adds nor drops a row |
| Ordering.SortStable | analytics_dashboard.py:375 | each group of peers keeps its input order |
| Ordering.LimitKeepsBest | analytics_dashboard.py:381-382 | a row left out by `ORDER BY … LIMIT` never sorts strictly ahead of a kept row |
| Ranking.Ranks | analytics_dashboard.py:424 | the scan gives `RANK`: one plus the number of rows strictly ahead |
| Ranking.DenseRanks | analytics_dashboard.py:490 | the scan gives `DENSE_RANK`: one plus the number of distinct keys strictly ahead |
| Ranking.PercentRanks | analytics_dashboard.py:568 | the scan gives `PERCENT_RANK`: the rows ahead over `n - 1`, or 0 for a single row, always in [0, 1] |
| Ranking.CumeDists | analytics_dashboard.py:636 | the scan gives `CUME_DIST`: the rows up to and including the current row's peers over `n`, in (0, 1] |
| Ranking.CountAheadIsPeerStart | analytics_dashboard.py:424 | in sorted order, the rows ahead are those before the current row's first peer |
| Ranking.CountThroughIsPeerEnd | analytics_dashboard.py:636 | in sorted order, the rows up to the last peer are those through the current row's last peer |
| Ranking.PeersRankAlike | analytics_dashboard.py:424 | peers share their `RANK`, `DENSE_RANK`, `PERCENT_RANK` and `CUME_DIST` |
| Ranking.RankAfterTie | analytics_dashboard.py:424 | a row that is not tied with the previous one has `RANK` equal to its position, leaving gaps after ties |
| Ranking.DenseRankNoGaps | analytics_dashboard.py:490 | `DENSE_RANK` starts at 1 and rises by at most one from row to row |
| Ranking.RankIndependentOfTies | analytics_dashboard.py:424 | the ranks depend only on the multiset of keys, not on how ties were ordered |
| Ranking.PercentRankEnds | analytics_dashboard.py:568 | `PERCENT_RANK` is 0 at the first row, and 1 at the last exactly when the last row is untied |
| Ranking.CumeDistMonotone | analytics_dashboard.py:636 | `CUME_DIST` never decreases along the window and ends at 1 |
| Ranking.PercentRankMonotone | analytics_dashboard.py:568 | `PERCENT_RANK` never decreases along the window |
| Ranking.Ntile | analytics_dashboard.py:717 | `NTILE(k)` puts row `i` in the bucket whose boundaries enclose it |
| Ranking.BucketStartFormula | analytics_dashboard.py:717 | the buckets of `NTILE(k)` over `n` rows are of size `n / k`, the first `n % k` of them one larger |
| Ranking.BucketSizes | analytics_dashboard.py:717 | bucket sizes never grow, and differ by at most one |
| Ranking.NtileMonotone | analytics_dashboard.py:717 | the bucket number never decreases along the window |
| Ranking.NtileLast | analytics_dashboard.py:717 | the last row is in bucket `k`, or in bucket `n` when there are fewer rows than buckets |
| Positional.FrameEnd | analytics_dashboard.py:1011-1015 | the whole-partition frame ends at the last row; the default frame ends after the current row's last peer |
| Positional.NthValue | analytics_dashboard.py:1086-1101 | `NTH_VALUE(v, k)` is the k-th row's value, NULL when the frame has fewer than `k` rows |
| Positional.FirstValue | analytics_dashboard.py:958-962 | `FIRST_VALUE` is `NTH_VALUE(v, 1)` |
| Positional.LastValue | analytics_dashboard.py:1011-1015 | `LAST_VALUE` is the value of the frame's last row |
| Positional.NthValueBroadcast | analytics_dashboard.py:1086-1101 | over the whole partition, every row sees the same `NTH_VALUE`, present exactly when the partition has `k` rows |
| Positional.NthValueNested | analytics_dashboard.py:1086-1101 | if the k-th row is present, so is every earlier one |
| Positional.LastValueWholePartition | analytics_dashboard.py:1011-1015 | over the whole partition, `LAST_VALUE` is the partition's last row at every row |
| Positional.LastValueDefaultFrame | analytics_dashboard.py:1011-1015 | under the default frame with distinct keys, `LAST_VALUE` is just the current row, which is why the frame is spelt out |
| Positional.Lead | analytics_dashboard.py:863-866 | `LEAD` is the next row's value, NULL exactly at the last row |
| Tiers.RevenueTierOf | analytics_dashboard.py:435-439 | the revenue tier label for each range of rank |
| Tiers.RevenueTierMonotone | analytics_dashboard.py:435-439 | a worse rank never gives a better tier |
| Tiers.QualityTierOf | analytics_dashboard.py:502-507 | the quality tier label for each dense rank |
| Tiers.CommissionTierOf | analytics_dashboard.py:579-583 | the commission tier label for each range of percentile |
| Tiers.CommissionTierMonotone | analytics_dashboard.py:579-583 | a higher percentile never gives a better tier |
| Tiers.CommissionTierOfRounded | analytics_dashboard.py:568-583 | on the rounded percentile, the top tier is taken exactly below 0.2005 and the growth pool from 0.5005 |
| Tiers.EfficiencyQuartileOf | analytics_dashboard.py:646-654 | the efficiency quartile label for each range of `CUME_DIST` |
| Tiers.EfficiencyQuartileMonotone | analytics_dashboard.py:646-654 | a larger share never gives a better quartile |
| Tiers.CustomerSegmentOf | analytics_dashboard.py:726-734 | the customer segment label for each bucket |
| Tiers.RetentionRiskOf | analytics_dashboard.py:881-890 | NULL idle time is "Last ride"; otherwise the label for each range of idle seconds (over 4 h, 2 to 4 h, at most 2 h) |
| Tiers.ProgressionTrendOf | analytics_dashboard.py:946-951 | the trend label for each range of fare gain |
| Tiers.ProgressionTrendMonotone | analytics_dashboard.py:946-951 | a larger gain never gives a worse trend |
| Tiers.QualityTrendFlagOf | analytics_dashboard.py:1027-1034 | the flag for each range of trend, and NULL exactly when the trend is NULL, since the `CASE` has no `ELSE` |
| Tiers.QualityTrendFlagMonotone | analytics_dashboard.py:1027-1034 | a higher trend never gives a worse flag |
| Tiers.LifecycleStageOf | analytics_dashboard.py:1109-1114 | the lifecycle stage for each range of ride count |
| Tiers.LifecycleStageMonotone | analytics_dashboard.py:1109-1114 | more rides never give an earlier lifecycle stage |
| Tiers.OnboardingOf | analytics_dashboard.py:1119-1122 | strong onboarding exactly with 50 rides and both fares present, the tenth fare above the first |
| Dashboard.Efficiency | analytics_dashboard.py:366-372 | a driver's row is `AVG(avg_wait_minutes)` and `SUM(total_rides)` over their days |
| Dashboard.DriverEfficiencies | analytics_dashboard.py:366-372 | one row per group of active days, each driver at most once, with the average wait and ride total over exactly that driver's days with rides |
| Dashboard.DriverListedIffRides | analytics_dashboard.py:371-372 | a driver is listed exactly when they have a day with at least one ride |
| Dashboard.Leaderboard | analytics_dashboard.py:374-382 | the first `min(15, n)` drivers in wait order, numbered 1, 2, …, waits non-decreasing, each carrying the fleet average over every driver |
| Dashboard.LeaderboardKeepsBest | analytics_dashboard.py:375-382 | a driver left off the leaderboard waits at least as long as every driver on it |
| Dashboard.FleetAverageBetween | analytics_dashboard.py:379 | the fleet average lies between the shortest and the longest driver average |
| Dashboard.Quartiles | analytics_dashboard.py:636-657 | every driver once, with the rounded share of drivers waiting at most as long, and the quartile of that share |
| Dashboard.QuartilesOrdered | analytics_dashboard.py:636-657 | the shares never decrease, lie in [0, 1], and the last is 1 |
| Dashboard.CumeDistColumn | analytics_dashboard.py:636 | the `CUME_DIST` scan over the sorted drivers, rounded, is the counting definition over all drivers, within [0, 1] |
| Dashboard.CumeDistOrdered | analytics_dashboard.py:636-638 | the rounded shares never decrease along the wait order and the last is 1 |
| Dashboard.Revenue | analytics_dashboard.py:419-427 | a driver's row is `COUNT(*)` and `SUM(fare_amount)` over their rides |
| Dashboard.DriverRevenues | analytics_dashboard.py:419-427 | one row per driver name with a ride, names distinct, with `COUNT(*)` and `SUM(fare_amount)` over exactly that driver's rides |
| Dashboard.DriverRevenueListed | analytics_dashboard.py:419-427 | a driver is listed exactly when they have a ride |
| Dashboard.RevenueTiers | analytics_dashboard.py:419-443 | at most 30 rows; each rank is one plus the number of drivers with strictly more revenue; tier by rank; average fare is revenue over rides |
| Dashboard.RankColumn | analytics_dashboard.py:424 | the `RANK` scan over the sorted drivers is the counting definition, never decreasing and at most the position |
| Dashboard.RevenueTiersOrdered | analytics_dashboard.py:435-443 | ranks never decrease, and no listed driver is in the Growth tier |
| Dashboard.Commissions | analytics_dashboard.py:563-587 | the first `min(25, n)` drivers in revenue order; the percentile is the rounded exact `PERCENT_RANK` over all drivers; tier by percentile; revenue per ride with `NULLIF`; percentiles non-decreasing |
| Dashboard.CommissionsKeepTop | analytics_dashboard.py:563-587 | a driver left out earns at most as much as every listed driver, and has a percentile at least as high |
| Dashboard.PercentRankBelow | analytics_dashboard.py:568 | less revenue never gives a lower rounded percentile |
| Dashboard.PercentRankColumn | analytics_dashboard.py:568 | the `PERCENT_RANK` scan over the sorted drivers is the counting definition |
| Dashboard.CommissionTiersExact | analytics_dashboard.py:568-583 | revenue per ride is never NULL; the top tier is taken exactly when the exact percent rank is below 0.2005, the growth pool from 0.5005 |
| Dashboard.Rating | analytics_dashboard.py:488-489 | a driver's average rating is `AVG` of the ratings of their rated rides, the sum over the count |
| Dashboard.DriverRatings | analytics_dashboard.py:486-495 | one row per kept group, names distinct, counting each driver's rated rides (at least 10), with `AVG(rating)` over exactly those rides |
| Dashboard.DriverRatedIffEnoughRatings | analytics_dashboard.py:493-495 | a driver is listed exactly when they have at least 10 rated rides |
| Dashboard.QualityTiers | analytics_dashboard.py:486-509 | every driver in rating order, with the rounded rating and one plus the number of distinct higher ratings as the tier |
| Dashboard.DenseRankColumn | analytics_dashboard.py:490 | the `DENSE_RANK` scan over the sorted drivers is the counting definition |
| Dashboard.QualityTiersOrdered | analytics_dashboard.py:490-509 | tiers never decrease and rounded ratings never increase; tier 1 comes first and is Platinum; tiers have no gaps |
| Dashboard.Customer | analytics_dashboard.py:702-709 | a customer's ride count, `SUM(fare_amount)` and `AVG(distance_km)` over their rides |
| Dashboard.CustomerAggregates | analytics_dashboard.py:702-709 | one row per customer with a ride, names distinct, with ride count, total fare and average distance over exactly that customer's rides |
| Dashboard.CustomerListed | analytics_dashboard.py:702-709 | a customer is listed exactly when they have a ride |
| Dashboard.Segments | analytics_dashboard.py:711-737 | a permutation of the customers by non-increasing fare, each in bucket `NTILE(4)` of its position, with its segment |
| Dashboard.SegmentsOrdered | analytics_dashboard.py:717-737 | buckets never decrease, and a customer who spent more is never in a later bucket |
| Dashboard.SegmentsComplete | analytics_dashboard.py:717-734 | with at least four customers, the first is VIP and the last Basic |
| Dashboard.InStartOrder | analytics_dashboard.py:863-866 | a driver's rides as a permutation in start order |
| Dashboard.WithLead | analytics_dashboard.py:863-866 | each ride carries `LEAD(start_time)` of its partition |
| Dashboard.ChurnRowOf | analytics_dashboard.py:876-890 | the idle time is the next start minus the current end, and the risk is its label |
| Dashboard.DriverChurn | analytics_dashboard.py:857-892 | one row per ride but the last in start order, each with the idle time until the next ride and its risk |
| Dashboard.OnlyLastRideHasNoNext | analytics_dashboard.py:891-892 | `WHERE next_ride_start IS NOT NULL` drops exactly the driver's last ride |
| Dashboard.ChurnRiskMatrix | analytics_dashboard.py:857-892 | every row's risk is the label of its idle time, and never "Last ride" |
| Dashboard.ChurnRiskMatrixRows | analytics_dashboard.py:857-892 | a row is in the matrix exactly when it is a churn row of one of the five watched drivers' rides |
| Dashboard.ChurnRiskMatrixOrder | analytics_dashboard.py:857-892 | the matrix is the watched drivers' churn rows one partition after another, one partition per watched driver with rides, each in start order |
| Dashboard.WatchedPartition | analytics_dashboard.py:863-869 | each partition of the filtered rides belongs to a watched driver and holds all of that driver's rides |
| Dashboard.ChurnNextRideLater | analytics_dashboard.py:863-866 | the next ride never starts before the current one, and rows come in start order |
| Dashboard.Percent | analytics_dashboard.py:945 | the percentage is NULL exactly when the base is 0, and otherwise times the base is 100 times the part |
| Dashboard.ProgressionAt | analytics_dashboard.py:941-962 | ride number is position plus one; the first fare is `FIRST_VALUE`; gain, percentage and trend of the gain |
| Dashboard.DriverProgression | analytics_dashboard.py:954-962 | one row per ride, in start order |
| Dashboard.DriverProgressionReport | analytics_dashboard.py:954-967 | only the featured drivers' rows |
| Dashboard.ProgressionReportRows | analytics_dashboard.py:954-967 | a row is in the report exactly when its driver is featured and it is a progression row of some driver's rides |
| Dashboard.ProgressionReportOrder | analytics_dashboard.py:954-967 | the report is each partition's featured rows in ride-number order, partition after partition |
| Dashboard.FirstRideIsBaseline | analytics_dashboard.py:944-951 | the first ride is number 1, gains 0 and is Stable; its percentage is 0, or NULL for a free first ride |
| Dashboard.SameBaseline | analytics_dashboard.py:958-962 | every ride of a driver is measured against the same first fare |
| Dashboard.QualityTrendAt | analytics_dashboard.py:1006-1034 | the count, the lifetime average and the latest ride's rating are whole-partition values; the displayed trend is their exact difference; the flag is never NULL and matches the displayed trend |
| Dashboard.RatedPartition | analytics_dashboard.py:1019 | every ride of a partition of rated rides is rated |
| Dashboard.QualityTrends | analytics_dashboard.py:1006-1037 | one row per driver with a rated ride: the `rn = 1` row of that driver's rated rides in start order, counting them, the flag matching the trend |
| Dashboard.PartitionTrend | analytics_dashboard.py:1016-1037 | the partition's row is the trend at its last ride in start order, counting the partition, its flag matching its trend |
| Dashboard.TrendAlerts | analytics_dashboard.py:1038-1040 | the first `min(20, n)` drivers in trend order, trends non-decreasing |
| Dashboard.TrendAlertsKeepWorst | analytics_dashboard.py:1038-1040 | a driver left out never has a steeper decline than one listed |
| Dashboard.MilestoneFare | analytics_dashboard.py:1086-1101 | the rounded fare of the k-th ride in start order, NULL when there are fewer than `k` rides |
| Dashboard.MilestoneAt | analytics_dashboard.py:1083-1122 | the ride count, stage, the four milestone fares from the 1st, 10th, 50th and 100th rides, and onboarding from them |
| Dashboard.DriverMilestones | analytics_dashboard.py:1083-1104 | one row per driver, the `rn = 1` row of their rides in start order: ride count, each milestone fare present exactly when reached, stage and onboarding |
| Dashboard.PartitionMilestone | analytics_dashboard.py:1102-1126 | the partition's row is the milestone row at its last ride in start order, counting the partition |
| Dashboard.Milestones | analytics_dashboard.py:1125-1129 | the first `min(30, n)` drivers with at least 10 rides, row `i` being row `i` of them sorted by ride count, non-increasing |
| Dashboard.MilestonesKeepBusiest | analytics_dashboard.py:1125-1129 | a driver with at least 10 rides who is left out has no more rides than any listed driver |
| Dashboard.TopRows | analytics_dashboard.py:1125-1129 | `ORDER BY … LIMIT n` keeps the first `min(n, count)` rows of the sorted input, in order |
| Dashboard.MilestoneReportRows | analytics_dashboard.py:1109-1126 | every listed driver has first and tenth fares, is never New, and is in strong onboarding exactly with 50 rides and a rising tenth fare |
| Dashboard.MilestoneFunnel | analytics_dashboard.py:1158-1166 | the four counts are the numbers of drivers that reached the 1st, 10th, 50th and 100th ride, each at most the number of drivers |
| Dashboard.FunnelNarrows | analytics_dashboard.py:1158-1166 | the funnel counts never increase from milestone to milestone |
| Dashboard.FunnelOfReport | analytics_dashboard.py:1158-1166 | on the report, the first two counts are the whole list, and the counts never increase |

## Left out

- Database access, the Plotly figures, report generation and the entry point are not part of this model. Neither is the second copy of the dashboard (`08_analytics_dashboard.py`), nor the ETL that fills the tables.
- The definition of the view `v_driver_daily_utilization` is not part of this model. The leaderboard and the quartiles start from its rows.
- `ROUND` calls whose result is only displayed are left out. These are the fleet average (Q4), the average fare (Q5), the revenue per ride (Q7), idle hours (Q10), and fare gain and percentage (Q11). Each `ROUND` whose result feeds a `CASE`, a comparison or an `ORDER BY` is modelled.
- `DATE(...)` and `EXTRACT(HOUR ...)` of ride times are display columns and are left out. So is the `::numeric` cast of float values; all values are exact.
- Dashboard.ChurnRiskMatrix: does not model the final `ORDER BY driver_name, current_ride_start LIMIT 100`. It returns every watched driver's rows, partition by partition, in start order, as `ChurnRiskMatrixOrder` states.
- Dashboard.DriverProgressionReport: does not model the final `ORDER BY driver_name, ride_number LIMIT 50`. It returns all rows of the featured drivers, partition by partition, in ride order, as `ProgressionReportOrder` states.
- Fares, distances and wait times are taken to be non-NULL. The schema of these columns is not part of this model. Ratings are nullable, as the queries test.
- Among rows whose sort keys tie, the database's order is unspecified. Except in Q7 and Q8 (next line), the model breaks ties by input order. `RankIndependentOfTies` shows that ranks, dense ranks and cumulative distributions do not depend on that choice. `ROW_NUMBER`, `NTILE` and `LIMIT` do depend on it. So do the positional functions ordered by `start_time` when two of a driver's rides start at the same time: which ride `LEAD` sees as next (the idle time in Q10), the first fare `FIRST_VALUE` returns (Q11), the latest rating `LAST_VALUE` returns (Q12) and the fares `NTH_VALUE` returns (Q13). The model takes the ride earlier in input order as the earlier one.
- Dashboard.Commissions: sorts on exact revenue, descending, and Dashboard.Quartiles on the exact average wait, ascending. The queries order by the rounded `revenue_percentile` and `efficiency_cume_dist` instead. Rounding to three places keeps distinct values apart when they are at least 0.001 apart, so the two orders agree up to 1001 drivers in Q7 and 1000 in Q8. With more drivers, two drivers can share a rounded value; the model then lists them by exact value, and only equal exact values by input order. That is one order the database may return, not the only one.
- Dashboard.CommissionsKeepTop: its clause that a driver left out earns at most as much as every listed driver rests on that tie-break. The query itself promises only the percentile clause.
- The `rn = 1` row of Q12 and Q13 is taken as the last row in start order. Every column the two queries output is a whole-partition value or the driver's name, so which of several rides tied at the latest start time is numbered 1 does not matter by itself. The values do depend on the order of ties, as above: with two rated rides at a driver's latest start time, `most_recent_rating` in Q12 may be either rating in the database, and in the model it is the rating of the ride later in input order.
- The average fares per milestone in the funnel's second chart are left out; only the driver counts are modelled.
- Dashboard.RevenueTiers: its rows come in rank order, with ties in input order; `RevenueTiersOrdered` proves the ranks are non-decreasing. The Growth tier can never appear, because `LIMIT 30` keeps only rows whose rank is at most 30.
