/** The window-function queries of the ride-hailing analytics dashboard, each as a function
    from the rows it reads to the rows it returns, with the properties its window function,
    CASE and LIMIT give the result. */
module Dashboard {
  import opened Sql
  import opened Ordering
  import opened Ranking
  import opened Positional
  import opened Tiers

  /** One row of fact_rides joined with its driver (dim_driver) and its customer (dim_user).
      Times are in whole seconds; fares, distances and ratings are exact decimals. */
  datatype Ride = Ride(
    rideId: int,
    driverKey: int,
    driverName: string,
    customerName: string,
    startTime: int,
    endTime: int,
    fare: real,
    distanceKm: real,
    rating: Option<real>)

  /** One row of the view v_driver_daily_utilization: one driver on one day. */
  datatype DailyUtilization = DailyUtilization(driverName: string, ridesThatDay: int, avgWaitMinutes: real)

  // ===========================================================================
  // Driver efficiency: the per-driver aggregate behind the leaderboard and the quartiles

  /** One driver's average wait over the days on which they had rides, and their ride total. */
  datatype DriverEfficiency = DriverEfficiency(driverName: string, avgWaitMinutes: real, totalRides: int)

  predicate HadRides(u: DailyUtilization) { u.ridesThatDay > 0 }

  function DayDriver(u: DailyUtilization): string { u.driverName }

  function DayWait(u: DailyUtilization): real { u.avgWaitMinutes }

  function DayRides(u: DailyUtilization): int { u.ridesThatDay }

  function WaitOf(e: DriverEfficiency): real { e.avgWaitMinutes }

  /** AVG(avg_wait_time_minutes) and SUM(total_rides_that_day) over one driver's days. */
  function Efficiency(g: Group<string, DailyUtilization>): (e: DriverEfficiency)
    requires |g.rows| > 0
    ensures e.driverName == g.key
    ensures e.avgWaitMinutes * |g.rows| as real == Total(Column(g.rows, DayWait))
    ensures Avg(Column(g.rows, DayWait)) == Some(e.avgWaitMinutes)
    ensures e.totalRides == SumInt(Column(g.rows, DayRides))
  {
    DriverEfficiency(g.key, Avg(Column(g.rows, DayWait)).value, SumInt(Column(g.rows, DayRides)))
  }

  /** A driver's days with at least one ride, in their original order. */
  function ActiveDays(util: seq<DailyUtilization>, name: string): seq<DailyUtilization> {
    RowsWithKey(Filter(util, HadRides), DayDriver, name)
  }

  /** WHERE total_rides_that_day > 0 GROUP BY driver_name: one row per driver, each driver
      once (DriverListedIffRides says which drivers), with the average wait and the ride
      total over exactly that driver's days with rides. */
  function DriverEfficiencies(util: seq<DailyUtilization>): (es: seq<DriverEfficiency>)
    ensures |es| == |GroupBy(Filter(util, HadRides), DayDriver)|
    ensures forall i :: 0 <= i < |es| ==> es[i].driverName == GroupBy(Filter(util, HadRides), DayDriver)[i].key
    ensures forall i, j :: 0 <= i < j < |es| ==> es[i].driverName != es[j].driverName
    ensures forall i :: 0 <= i < |es| ==>
      var days := ActiveDays(util, es[i].driverName);
      |days| > 0 &&
      Avg(Column(days, DayWait)) == Some(es[i].avgWaitMinutes) &&
      es[i].totalRides == SumInt(Column(days, DayRides))
  {
    var gs := GroupBy(Filter(util, HadRides), DayDriver);
    var es := seq(|gs|, i requires 0 <= i < |gs| => Efficiency(gs[i]));
    forall i | 0 <= i < |es|
      ensures var days := ActiveDays(util, es[i].driverName);
        |days| > 0 &&
        Avg(Column(days, DayWait)) == Some(es[i].avgWaitMinutes) &&
        es[i].totalRides == SumInt(Column(days, DayRides))
    {
      var e := Efficiency(gs[i]);
      assert es[i] == e && e.driverName == gs[i].key;
      assert gs[i].rows == ActiveDays(util, gs[i].key);
    }
    es
  }

  /** A driver is listed exactly when they have a day with at least one ride. */
  lemma DriverListedIffRides(util: seq<DailyUtilization>, name: string)
    ensures (exists i :: 0 <= i < |DriverEfficiencies(util)| && DriverEfficiencies(util)[i].driverName == name)
        <==> exists u :: u in util && HadRides(u) && u.driverName == name
  {
    if exists u :: u in util && HadRides(u) && u.driverName == name {
      var u :| u in util && HadRides(u) && u.driverName == name;
      ActiveDriverListed(util, u);
    }
    if exists i :: 0 <= i < |DriverEfficiencies(util)| && DriverEfficiencies(util)[i].driverName == name {
      var i :| 0 <= i < |DriverEfficiencies(util)| && DriverEfficiencies(util)[i].driverName == name;
      ListedDriverActive(util, i);
    }
  }

  lemma ActiveDriverListed(util: seq<DailyUtilization>, u: DailyUtilization)
    requires u in util && HadRides(u)
    ensures exists i :: 0 <= i < |DriverEfficiencies(util)| && DriverEfficiencies(util)[i].driverName == u.driverName
  {
    var active := Filter(util, HadRides);
    assert u in active;
    GroupByCovers(active, DayDriver, u);
    var i :| 0 <= i < |GroupBy(active, DayDriver)| && GroupBy(active, DayDriver)[i].key == DayDriver(u);
    assert DriverEfficiencies(util)[i].driverName == u.driverName;
  }

  lemma ListedDriverActive(util: seq<DailyUtilization>, i: nat)
    requires i < |DriverEfficiencies(util)|
    ensures exists u :: u in util && HadRides(u) && u.driverName == DriverEfficiencies(util)[i].driverName
  {
    var gs := GroupBy(Filter(util, HadRides), DayDriver);
    var u := gs[i].rows[0];
    assert u in gs[i].rows;
    assert u in Filter(util, HadRides);
  }

  // ===========================================================================
  // Driver efficiency leaderboard: ROW_NUMBER() OVER (ORDER BY average wait ASC), LIMIT 15

  datatype LeaderboardRow = LeaderboardRow(
    efficiencyRank: nat,
    driverName: string,
    avgWaitMinutes: real,
    totalRides: int,
    fleetAvgWaitMinutes: real)

  const LeaderboardSize: nat := 15

  /** The driver a row describes. */
  function LeaderboardDriver(r: LeaderboardRow): DriverEfficiency {
    DriverEfficiency(r.driverName, r.avgWaitMinutes, r.totalRides)
  }

  function DriverLeaderboard(util: seq<DailyUtilization>): seq<LeaderboardRow> {
    Leaderboard(DriverEfficiencies(util))
  }

  /** The leaderboard over the per-driver efficiencies `es`: the drivers in order of average
      wait, numbered from 1, at most fifteen of them, each with the fleet average, which is
      AVG(...) OVER () and so taken over every driver before the LIMIT. */
  function Leaderboard(es: seq<DriverEfficiency>): (rows: seq<LeaderboardRow>)
    ensures |rows| == Min(LeaderboardSize, |es|)
    ensures forall i :: 0 <= i < |rows| ==> LeaderboardDriver(rows[i]) == SortBy(es, WaitOf, Asc)[i]
    ensures forall i :: 0 <= i < |rows| ==> rows[i].efficiencyRank == i + 1
    ensures forall i, j :: 0 <= i < j < |rows| ==> rows[i].avgWaitMinutes <= rows[j].avgWaitMinutes
    ensures forall i :: 0 <= i < |rows| ==> LeaderboardDriver(rows[i]) in es
    ensures forall i :: 0 <= i < |rows| ==> Avg(Column(es, WaitOf)) == Some(rows[i].fleetAvgWaitMinutes)
  {
    if |es| == 0 then []
    else
      var sorted := SortBy(es, WaitOf, Asc);
      SortedMembers(es, WaitOf, Asc);
      LeaderboardRows(Limit(sorted, LeaderboardSize), Avg(Column(es, WaitOf)).value)
  }

  /** Numbers the leading drivers 1, 2, ... and gives each the fleet average. */
  function LeaderboardRows(top: seq<DriverEfficiency>, fleet: real): (rows: seq<LeaderboardRow>)
    ensures |rows| == |top|
    ensures forall i :: 0 <= i < |rows| ==> LeaderboardDriver(rows[i]) == top[i]
    ensures forall i :: 0 <= i < |rows| ==> rows[i].efficiencyRank == i + 1 && rows[i].fleetAvgWaitMinutes == fleet
  {
    seq(|top|, i requires 0 <= i < |top| =>
      LeaderboardRow(i + 1, top[i].driverName, top[i].avgWaitMinutes, top[i].totalRides, fleet))
  }

  /** The leaderboard keeps the shortest average waits: a driver who is not on it waits at
      least as long as every driver who is. */
  lemma LeaderboardKeepsBest(es: seq<DriverEfficiency>, e: DriverEfficiency)
    requires e in es
    ensures (exists i :: 0 <= i < |Leaderboard(es)| && LeaderboardDriver(Leaderboard(es)[i]) == e)
         || forall i :: 0 <= i < |Leaderboard(es)| ==> Leaderboard(es)[i].avgWaitMinutes <= e.avgWaitMinutes
  {
    var rows := Leaderboard(es);
    var sorted := SortBy(es, WaitOf, Asc);
    var m := |rows|;
    LimitKeepsBest(es, WaitOf, Asc, m, e);
    assert forall i :: 0 <= i < m ==> LeaderboardDriver(rows[i]) == sorted[i];
    if e in sorted[..m] {
      var i :| 0 <= i < m && sorted[..m][i] == e;
      assert LeaderboardDriver(rows[i]) == e;
    }
  }

  /** The fleet average lies between the shortest and the longest driver average. */
  lemma FleetAverageBetween(es: seq<DriverEfficiency>, lo: real, hi: real)
    requires forall e :: e in es ==> lo <= e.avgWaitMinutes <= hi
    ensures forall r :: r in Leaderboard(es) ==> lo <= r.fleetAvgWaitMinutes <= hi
  {
    var waits := Column(es, WaitOf);
    if |es| > 0 {
      forall i | 0 <= i < |waits| ensures lo <= waits[i] <= hi {
        assert es[i] in es;
      }
      AvgBetween(waits, lo, hi);
    }
  }

  // ===========================================================================
  // Efficiency quartiles: CUME_DIST() OVER (ORDER BY average wait ASC), rounded to three places

  datatype QuartileRow = QuartileRow(
    driverName: string,
    totalRides: int,
    avgWaitMinutes: real,
    cumeDist: real,
    quartile: EfficiencyQuartile)

  function QuartileDriver(r: QuartileRow): DriverEfficiency {
    DriverEfficiency(r.driverName, r.avgWaitMinutes, r.totalRides)
  }

  function EfficiencyQuartiles(util: seq<DailyUtilization>): seq<QuartileRow> {
    Quartiles(DriverEfficiencies(util))
  }

  /** Every driver of `es`, once, with the share of drivers whose average wait is at most
      theirs, rounded to three places, and the quartile of that rounded share. */
  function Quartiles(es: seq<DriverEfficiency>): (rows: seq<QuartileRow>)
    ensures multiset(Column(rows, QuartileDriver)) == multiset(es)
    ensures forall i :: 0 <= i < |rows| ==>
      rows[i].cumeDist == Round3(CountThrough(Asc, Keys(es, WaitOf), rows[i].avgWaitMinutes) as real / |es| as real)
    ensures forall i :: 0 <= i < |rows| ==> rows[i].quartile == EfficiencyQuartileOf(rows[i].cumeDist)
  {
    var sorted := SortBy(es, WaitOf, Asc);
    var ks := Keys(sorted, WaitOf);
    SortedKeysOf(sorted, WaitOf, Asc);
    var cd := CumeDists(Asc, ks);
    CumeDistColumn(es, sorted, ks, cd);
    QuartileRows(sorted, cd)
  }

  function QuartileRows(sorted: seq<DriverEfficiency>, cd: seq<real>): (rows: seq<QuartileRow>)
    requires |cd| == |sorted|
    ensures Column(rows, QuartileDriver) == sorted
    ensures |rows| == |sorted|
    ensures forall i :: 0 <= i < |rows| ==>
      rows[i].cumeDist == Round3(cd[i]) && rows[i].quartile == EfficiencyQuartileOf(rows[i].cumeDist)
  {
    var rows := seq(|sorted|, i requires 0 <= i < |sorted| =>
      var c := Round3(cd[i]);
      QuartileRow(sorted[i].driverName, sorted[i].totalRides, sorted[i].avgWaitMinutes, c, EfficiencyQuartileOf(c)));
    assert Column(rows, QuartileDriver) == sorted;
    rows
  }

  /** The rows come in order of their rounded share (ORDER BY efficiency_cume_dist), every
      share lies in [0, 1], and the last driver's is 1. */
  lemma QuartilesOrdered(es: seq<DriverEfficiency>)
    ensures var rows := Quartiles(es);
      (forall i :: 0 <= i < |rows| ==> 0.0 <= rows[i].cumeDist <= 1.0) &&
      (forall i, j :: 0 <= i < j < |rows| ==> rows[i].cumeDist <= rows[j].cumeDist) &&
      (|rows| > 0 ==> rows[|rows| - 1].cumeDist == 1.0)
  {
    var sorted := SortBy(es, WaitOf, Asc);
    var ks := Keys(sorted, WaitOf);
    SortedKeysOf(sorted, WaitOf, Asc);
    CumeDistColumn(es, sorted, ks, CumeDists(Asc, ks));
    CumeDistOrdered(ks, CumeDists(Asc, ks));
  }

  /** The proof obligations of EfficiencyQuartiles, about the sorted drivers and their CUME_DIST. */
  lemma CumeDistColumn(es: seq<DriverEfficiency>, sorted: seq<DriverEfficiency>, ks: seq<real>, cd: seq<real>)
    requires sorted == SortBy(es, WaitOf, Asc) && ks == Keys(sorted, WaitOf)
    requires SortedKeys(Asc, ks) && cd == CumeDists(Asc, ks)
    ensures forall i :: 0 <= i < |sorted| ==> sorted[i] in es
    ensures forall i :: 0 <= i < |sorted| ==>
      Round3(cd[i]) == Round3(CountThrough(Asc, Keys(es, WaitOf), sorted[i].avgWaitMinutes) as real / |es| as real)
    ensures forall i :: 0 <= i < |sorted| ==> 0.0 <= Round3(cd[i]) <= 1.0
  {
    forall i | 0 <= i < |sorted|
      ensures sorted[i] in es
      ensures Round3(cd[i]) == Round3(CountThrough(Asc, Keys(es, WaitOf), sorted[i].avgWaitMinutes) as real / |es| as real)
      ensures 0.0 <= Round3(cd[i]) <= 1.0
    {
      CumeDistAt(es, sorted, ks, cd, i);
    }
  }

  /** The rounded CUME_DIST never decreases along the order and ends at 1. */
  lemma CumeDistOrdered(ks: seq<real>, cd: seq<real>)
    requires SortedKeys(Asc, ks) && cd == CumeDists(Asc, ks)
    ensures forall i, j :: 0 <= i < j < |ks| ==> Round3(cd[i]) <= Round3(cd[j])
    ensures |ks| > 0 ==> Round3(cd[|ks| - 1]) == 1.0
  {
    forall i, j | 0 <= i < j < |ks| ensures Round3(cd[i]) <= Round3(cd[j]) {
      RoundedCumeDistMonotone(ks, cd, i, j);
    }
    if |ks| > 0 {
      LastCumeDistIsOne(ks, cd);
    }
  }

  lemma LastCumeDistIsOne(ks: seq<real>, cd: seq<real>)
    requires SortedKeys(Asc, ks) && cd == CumeDists(Asc, ks) && |ks| > 0
    ensures Round3(cd[|ks| - 1]) == 1.0
  {
    CumeDistMonotone(Asc, ks, |ks| - 1, |ks| - 1);
    Round3One();
  }

  lemma RoundedCumeDistMonotone(ks: seq<real>, cd: seq<real>, i: nat, j: nat)
    requires SortedKeys(Asc, ks) && cd == CumeDists(Asc, ks) && i <= j < |ks|
    ensures Round3(cd[i]) <= Round3(cd[j])
  {
    CumeDistMonotone(Asc, ks, i, j);
    RoundMonotone(cd[i], cd[j]);
  }

  lemma CumeDistAt(es: seq<DriverEfficiency>, sorted: seq<DriverEfficiency>, ks: seq<real>, cd: seq<real>, i: nat)
    requires sorted == SortBy(es, WaitOf, Asc) && ks == Keys(sorted, WaitOf)
    requires SortedKeys(Asc, ks) && cd == CumeDists(Asc, ks) && i < |sorted|
    ensures sorted[i] in es
    ensures Round3(cd[i]) == Round3(CountThrough(Asc, Keys(es, WaitOf), sorted[i].avgWaitMinutes) as real / |es| as real)
    ensures 0.0 <= Round3(cd[i]) <= 1.0
  {
    SortMembers(es, WaitOf, Asc, sorted[i]);
    RankIndependentOfTies(Asc, ks, Keys(es, WaitOf), i);
    Round3InUnit(cd[i]);
  }

  lemma Round3InUnit(x: real)
    requires 0.0 <= x <= 1.0
    ensures 0.0 <= Round3(x) <= 1.0
  {
    RoundMonotone(0.0, x);
    RoundMonotone(x, 1.0);
    Round3One();
    assert Round3(0.0) == 0.0;
  }

  lemma Round3One()
    ensures Round3(1.0) == 1.0
  {
    assert HalfAwayFromZero(1000.0) == 1000;
  }

  // ===========================================================================
  // Per-driver revenue: the aggregate behind the revenue tiers and the commission percentiles

  /** COUNT(ride_id) and SUM(fare_amount) of one driver, over all of their rides. */
  datatype DriverRevenue = DriverRevenue(driverName: string, totalRides: nat, totalRevenue: real)

  function RideDriverName(r: Ride): string { r.driverName }

  function RideFare(r: Ride): real { r.fare }

  function RevenueOf(d: DriverRevenue): real { d.totalRevenue }

  function Revenue(g: Group<string, Ride>): (d: DriverRevenue)
    ensures d.driverName == g.key && d.totalRides == |g.rows|
    ensures d.totalRevenue == Total(Column(g.rows, RideFare))
  {
    DriverRevenue(g.key, |g.rows|, Total(Column(g.rows, RideFare)))
  }

  /** A driver's rides, in their original order. */
  function RidesOf(rides: seq<Ride>, name: string): seq<Ride> {
    RowsWithKey(rides, RideDriverName, name)
  }

  /** GROUP BY driver_name over every ride: each driver once (DriverRevenueListed says which
      drivers), with COUNT(ride_id) their number of rides, which is at least one, and
      SUM(fare_amount) the sum of exactly their fares. */
  function DriverRevenues(rides: seq<Ride>): (ds: seq<DriverRevenue>)
    ensures |ds| == |GroupBy(rides, RideDriverName)|
    ensures forall i :: 0 <= i < |ds| ==> ds[i].driverName == GroupBy(rides, RideDriverName)[i].key
    ensures forall i, j :: 0 <= i < j < |ds| ==> ds[i].driverName != ds[j].driverName
    ensures forall i :: 0 <= i < |ds| ==> ds[i].totalRides == CountWhere(rides, RideDriverName, ds[i].driverName)
    ensures forall i :: 0 <= i < |ds| ==>
      ds[i].totalRides == |RidesOf(rides, ds[i].driverName)| &&
      ds[i].totalRevenue == Total(Column(RidesOf(rides, ds[i].driverName), RideFare))
    ensures forall d :: d in ds ==> d.totalRides > 0
  {
    var gs := GroupBy(rides, RideDriverName);
    seq(|gs|, i requires 0 <= i < |gs| => Revenue(gs[i]))
  }

  /** A driver has a revenue row exactly when they have a ride. */
  lemma DriverRevenueListed(rides: seq<Ride>, name: string)
    ensures (exists i :: 0 <= i < |DriverRevenues(rides)| && DriverRevenues(rides)[i].driverName == name)
        <==> CountWhere(rides, RideDriverName, name) > 0
  {
    var ds := DriverRevenues(rides);
    var gs := GroupBy(rides, RideDriverName);
    GroupByKeys(rides, RideDriverName, name);
    if exists i :: 0 <= i < |gs| && gs[i].key == name {
      var i :| 0 <= i < |gs| && gs[i].key == name;
      assert ds[i].driverName == name;
    }
    if exists i :: 0 <= i < |ds| && ds[i].driverName == name {
      var i :| 0 <= i < |ds| && ds[i].driverName == name;
      assert i < |gs| && ds[i].driverName == gs[i].key;
    }
  }

  // ===========================================================================
  // Revenue tiers: RANK() OVER (ORDER BY SUM(fare_amount) DESC), LIMIT 30

  datatype RevenueTierRow = RevenueTierRow(
    revenueRank: nat,
    driverName: string,
    totalRides: nat,
    totalRevenue: real,
    avgFarePerRide: real,
    tier: RevenueTier)

  const RevenueTierLimit: nat := 30

  function RevenueTierDriver(r: RevenueTierRow): DriverRevenue {
    DriverRevenue(r.driverName, r.totalRides, r.totalRevenue)
  }

  function RevenueTierRanks(rides: seq<Ride>): seq<RevenueTierRow> {
    RevenueTiers(DriverRevenues(rides))
  }

  /** Each driver's rank is one more than the number of drivers with strictly more revenue, so
      tied drivers share a rank and the next rank skips; the rows come in rank order, at most
      thirty of them, each with its tier and its average fare per ride. */
  function RevenueTiers(ds: seq<DriverRevenue>): (rows: seq<RevenueTierRow>)
    requires forall d :: d in ds ==> d.totalRides > 0
    ensures |rows| == Min(RevenueTierLimit, |ds|)
    ensures forall i :: 0 <= i < |rows| ==> RevenueTierDriver(rows[i]) == SortBy(ds, RevenueOf, Desc)[i]
    ensures forall i :: 0 <= i < |rows| ==> RevenueTierDriver(rows[i]) in ds
    ensures forall i :: 0 <= i < |rows| ==>
      rows[i].revenueRank == 1 + CountAhead(Desc, Keys(ds, RevenueOf), rows[i].totalRevenue)
    ensures forall i :: 0 <= i < |rows| ==> rows[i].tier == RevenueTierOf(rows[i].revenueRank)
    ensures forall i :: 0 <= i < |rows| ==>
      rows[i].totalRides > 0 && rows[i].avgFarePerRide == Divide(rows[i].totalRevenue, rows[i].totalRides as real)
  {
    var sorted := SortBy(ds, RevenueOf, Desc);
    SortedKeysOf(sorted, RevenueOf, Desc);
    var rk := Ranks(Desc, Keys(sorted, RevenueOf));
    var top := Limit(sorted, RevenueTierLimit);
    TopRevenueRanks(ds, sorted, top, rk);
    var rows := RevenueTierRows(top, rk[..|top|]);
    RevenueTierRowsDescribe(ds, top, rk[..|top|], rows);
    rows
  }

  /** The drivers kept by the LIMIT and their ranks. */
  lemma TopRevenueRanks(ds: seq<DriverRevenue>, sorted: seq<DriverRevenue>, top: seq<DriverRevenue>, rk: seq<nat>)
    requires sorted == SortBy(ds, RevenueOf, Desc) && SortedKeys(Desc, Keys(sorted, RevenueOf))
    requires rk == Ranks(Desc, Keys(sorted, RevenueOf)) && top == Limit(sorted, RevenueTierLimit)
    ensures |top| <= |rk| && |top| <= |sorted|
    ensures forall i :: 0 <= i < |top| ==>
      top[i] == sorted[i] && top[i] in ds && rk[i] == 1 + CountAhead(Desc, Keys(ds, RevenueOf), top[i].totalRevenue)
  {
    RankColumn(ds, sorted, Keys(sorted, RevenueOf), rk);
    forall i | 0 <= i < |top|
      ensures top[i] == sorted[i] && top[i] in ds && rk[i] == 1 + CountAhead(Desc, Keys(ds, RevenueOf), top[i].totalRevenue)
    {
      assert top[i] == sorted[..|top|][i];
    }
  }

  lemma RevenueTierRowsDescribe(ds: seq<DriverRevenue>, top: seq<DriverRevenue>, rk: seq<nat>, rows: seq<RevenueTierRow>)
    requires |rk| == |top| && forall i :: 0 <= i < |top| ==> top[i] in ds && top[i].totalRides > 0
    requires forall i :: 0 <= i < |top| ==> rk[i] == 1 + CountAhead(Desc, Keys(ds, RevenueOf), top[i].totalRevenue)
    requires rows == RevenueTierRows(top, rk)
    ensures forall i :: 0 <= i < |rows| ==> RevenueTierDriver(rows[i]) in ds
    ensures forall i :: 0 <= i < |rows| ==>
      rows[i].revenueRank == 1 + CountAhead(Desc, Keys(ds, RevenueOf), rows[i].totalRevenue)
    ensures forall i :: 0 <= i < |rows| ==> rows[i].tier == RevenueTierOf(rows[i].revenueRank)
    ensures forall i :: 0 <= i < |rows| ==>
      rows[i].totalRides > 0 && rows[i].avgFarePerRide == Divide(rows[i].totalRevenue, rows[i].totalRides as real)
  {
    forall i | 0 <= i < |rows|
      ensures rows[i].totalRides == top[i].totalRides && rows[i].totalRevenue == top[i].totalRevenue
    {
      assert RevenueTierDriver(rows[i]) == top[i];
    }
  }

  function RevenueTierRows(top: seq<DriverRevenue>, rk: seq<nat>): (rows: seq<RevenueTierRow>)
    requires |rk| == |top| && forall i :: 0 <= i < |top| ==> top[i].totalRides > 0
    ensures |rows| == |top|
    ensures forall i :: 0 <= i < |rows| ==> RevenueTierDriver(rows[i]) == top[i]
    ensures forall i :: 0 <= i < |rows| ==> rows[i].revenueRank == rk[i] && rows[i].tier == RevenueTierOf(rk[i])
    ensures forall i :: 0 <= i < |rows| ==>
      rows[i].avgFarePerRide == Divide(top[i].totalRevenue, top[i].totalRides as real)
  {
    seq(|top|, i requires 0 <= i < |top| =>
      RevenueTierRow(rk[i], top[i].driverName, top[i].totalRides, top[i].totalRevenue,
        Divide(top[i].totalRevenue, top[i].totalRides as real), RevenueTierOf(rk[i])))
  }

  /** The facts RevenueTiers needs about the ranks of the sorted drivers. */
  lemma RankColumn(ds: seq<DriverRevenue>, sorted: seq<DriverRevenue>, ks: seq<real>, rk: seq<nat>)
    requires sorted == SortBy(ds, RevenueOf, Desc) && ks == Keys(sorted, RevenueOf)
    requires SortedKeys(Desc, ks) && rk == Ranks(Desc, ks)
    ensures forall i :: 0 <= i < |sorted| ==> sorted[i] in ds
    ensures forall i :: 0 <= i < |sorted| ==> rk[i] == 1 + CountAhead(Desc, Keys(ds, RevenueOf), sorted[i].totalRevenue)
    ensures forall i, j :: 0 <= i < j < |sorted| ==> rk[i] <= rk[j]
    ensures forall i :: 0 <= i < |sorted| ==> rk[i] <= i + 1
  {
    SortedMembers(ds, RevenueOf, Desc);
    forall i | 0 <= i < |sorted|
      ensures rk[i] == 1 + CountAhead(Desc, Keys(ds, RevenueOf), sorted[i].totalRevenue)
      ensures rk[i] <= i + 1
    {
      RankIndependentOfTies(Desc, ks, Keys(ds, RevenueOf), i);
      CountAheadIsPeerStart(Desc, ks, i);
    }
    forall i, j | 0 <= i < j < |sorted| ensures rk[i] <= rk[j] {
      TallyMonotoneInKey(Desc, ks, ks[i], ks[j], true);
    }
  }

  /** The rows come in rank order (ORDER BY revenue_rank), and the LIMIT of 30 hides the
      third tier: a row's rank is at most its position, so every row shown has rank 30 or
      better and "Growth Tier (Rank >30)" never appears. */
  lemma RevenueTiersOrdered(ds: seq<DriverRevenue>)
    requires forall d :: d in ds ==> d.totalRides > 0
    ensures var rows := RevenueTiers(ds);
      forall i, j :: 0 <= i < j < |rows| ==> rows[i].revenueRank <= rows[j].revenueRank
    ensures var rows := RevenueTiers(ds);
      forall i :: 0 <= i < |rows| ==> rows[i].revenueRank <= i + 1 && !rows[i].tier.GrowthTier?
  {
    var rows := RevenueTiers(ds);
    var sorted := SortBy(ds, RevenueOf, Desc);
    var ks := Keys(sorted, RevenueOf);
    SortedKeysOf(sorted, RevenueOf, Desc);
    var rk := Ranks(Desc, ks);
    RankColumn(ds, sorted, ks, rk);
    assert forall i :: 0 <= i < |rows| ==> rows[i].revenueRank == rk[i] by {
      forall i | 0 <= i < |rows| ensures rows[i].revenueRank == rk[i] {
        assert RevenueTierDriver(rows[i]) == sorted[i];
      }
    }
  }

  // ===========================================================================
  // Commission percentiles: PERCENT_RANK() OVER (ORDER BY SUM(fare_amount) DESC), LIMIT 25

  datatype CommissionRow = CommissionRow(
    driverName: string,
    totalRevenue: real,
    totalRides: nat,
    revenuePerRide: Option<real>,
    revenuePercentile: real,
    tier: CommissionTier)

  const CommissionLimit: nat := 25

  function CommissionDriver(r: CommissionRow): DriverRevenue {
    DriverRevenue(r.driverName, r.totalRides, r.totalRevenue)
  }

  function CommissionPercentiles(rides: seq<Ride>): seq<CommissionRow> {
    Commissions(DriverRevenues(rides))
  }

  /** The exact percent rank of a revenue among `ds`: the share of the other drivers with
      strictly more revenue. */
  function ExactPercentRank(ds: seq<DriverRevenue>, revenue: real): real {
    if |ds| > 1 then CountAhead(Desc, Keys(ds, RevenueOf), revenue) as real / (|ds| - 1) as real else 0.0
  }

  /** Each driver's percentile is their percent rank by revenue, rounded to three places; the
      commission tier is chosen from that rounded value; revenue per ride is NULL only for a
      driver without rides. At most 25 rows, in order of percentile. */
  function Commissions(ds: seq<DriverRevenue>): (rows: seq<CommissionRow>)
    ensures |rows| == Min(CommissionLimit, |ds|)
    ensures forall i :: 0 <= i < |rows| ==> CommissionDriver(rows[i]) == SortBy(ds, RevenueOf, Desc)[i]
    ensures forall i :: 0 <= i < |rows| ==> CommissionDriver(rows[i]) in ds
    ensures forall i :: 0 <= i < |rows| ==>
      rows[i].revenuePercentile == Round3(ExactPercentRank(ds, rows[i].totalRevenue))
    ensures forall i :: 0 <= i < |rows| ==> rows[i].tier == CommissionTierOf(rows[i].revenuePercentile)
    ensures forall i :: 0 <= i < |rows| ==>
      rows[i].revenuePerRide == DivideOrNull(rows[i].totalRevenue, rows[i].totalRides as real)
    ensures forall i, j :: 0 <= i < j < |rows| ==> rows[i].revenuePercentile <= rows[j].revenuePercentile
  {
    var sorted := SortBy(ds, RevenueOf, Desc);
    var ks := Keys(sorted, RevenueOf);
    SortedKeysOf(sorted, RevenueOf, Desc);
    var pr := PercentRanks(Desc, ks);
    PercentRankColumn(ds, sorted, ks, pr);
    var m := Min(CommissionLimit, |ds|);
    var rows := CommissionRows(Limit(sorted, CommissionLimit), pr[..m]);
    CommissionRowsDescribe(ds, sorted, pr, rows);
    rows
  }

  /** The rows of the top drivers, described in terms of all drivers. */
  lemma CommissionRowsDescribe(ds: seq<DriverRevenue>, sorted: seq<DriverRevenue>, pr: seq<real>,
                               rows: seq<CommissionRow>)
    requires sorted == SortBy(ds, RevenueOf, Desc) && |pr| == |sorted|
    requires forall i :: 0 <= i < |sorted| ==> sorted[i] in ds
    requires forall i :: 0 <= i < |sorted| ==> pr[i] == ExactPercentRank(ds, sorted[i].totalRevenue)
    requires forall i, j :: 0 <= i < j < |sorted| ==> Round3(pr[i]) <= Round3(pr[j])
    requires rows == CommissionRows(Limit(sorted, CommissionLimit), pr[..Min(CommissionLimit, |ds|)])
    ensures |rows| == Min(CommissionLimit, |ds|)
    ensures forall i :: 0 <= i < |rows| ==> CommissionDriver(rows[i]) == sorted[i] && sorted[i] in ds
    ensures forall i :: 0 <= i < |rows| ==>
      rows[i].revenuePercentile == Round3(ExactPercentRank(ds, rows[i].totalRevenue))
    ensures forall i :: 0 <= i < |rows| ==> rows[i].tier == CommissionTierOf(rows[i].revenuePercentile)
    ensures forall i :: 0 <= i < |rows| ==>
      rows[i].revenuePerRide == DivideOrNull(rows[i].totalRevenue, rows[i].totalRides as real)
    ensures forall i, j :: 0 <= i < j < |rows| ==> rows[i].revenuePercentile <= rows[j].revenuePercentile
  {
    var m := Min(CommissionLimit, |ds|);
    assert Limit(sorted, CommissionLimit) == sorted[..m];
  }

  function CommissionRows(top: seq<DriverRevenue>, pr: seq<real>): (rows: seq<CommissionRow>)
    requires |pr| == |top|
    ensures |rows| == |top|
    ensures forall i :: 0 <= i < |rows| ==> CommissionDriver(rows[i]) == top[i]
    ensures forall i :: 0 <= i < |rows| ==>
      rows[i].revenuePercentile == Round3(pr[i]) && rows[i].tier == CommissionTierOf(Round3(pr[i]))
    ensures forall i :: 0 <= i < |rows| ==>
      rows[i].revenuePerRide == DivideOrNull(top[i].totalRevenue, top[i].totalRides as real)
  {
    seq(|top|, i requires 0 <= i < |top| =>
      var p := Round3(pr[i]);
      CommissionRow(top[i].driverName, top[i].totalRevenue, top[i].totalRides,
        DivideOrNull(top[i].totalRevenue, top[i].totalRides as real), p, CommissionTierOf(p)))
  }

  /** The facts Commissions needs about the percent ranks of the sorted drivers. */
  lemma PercentRankColumn(ds: seq<DriverRevenue>, sorted: seq<DriverRevenue>, ks: seq<real>, pr: seq<real>)
    requires sorted == SortBy(ds, RevenueOf, Desc) && ks == Keys(sorted, RevenueOf)
    requires SortedKeys(Desc, ks) && pr == PercentRanks(Desc, ks)
    ensures forall i :: 0 <= i < |sorted| ==> sorted[i] in ds
    ensures forall i :: 0 <= i < |sorted| ==> pr[i] == ExactPercentRank(ds, sorted[i].totalRevenue)
    ensures forall i, j :: 0 <= i < j < |sorted| ==> Round3(pr[i]) <= Round3(pr[j])
  {
    SortedMembers(ds, RevenueOf, Desc);
    forall i | 0 <= i < |sorted| ensures pr[i] == ExactPercentRank(ds, sorted[i].totalRevenue) {
      TallyPermutation(Desc, ks, Keys(ds, RevenueOf), ks[i], true);
    }
    forall i, j | 0 <= i < j < |sorted| ensures Round3(pr[i]) <= Round3(pr[j]) {
      PercentRankMonotone(Desc, ks, i, j);
      RoundMonotone(pr[i], pr[j]);
    }
  }

  /** The LIMIT keeps the highest earners: a driver who is left out earns no more than any
      driver who is listed, and so has a percentile no lower than theirs. */
  lemma CommissionsKeepTop(ds: seq<DriverRevenue>, d: DriverRevenue)
    requires d in ds
    ensures var rows := Commissions(ds);
      (exists i :: 0 <= i < |rows| && CommissionDriver(rows[i]) == d) ||
      forall i :: 0 <= i < |rows| ==>
        d.totalRevenue <= rows[i].totalRevenue &&
        rows[i].revenuePercentile <= Round3(ExactPercentRank(ds, d.totalRevenue))
  {
    var rows := Commissions(ds);
    var sorted := SortBy(ds, RevenueOf, Desc);
    var m := |rows|;
    LimitKeepsBest(ds, RevenueOf, Desc, m, d);
    if d in sorted[..m] {
      var i :| 0 <= i < m && sorted[..m][i] == d;
      assert CommissionDriver(rows[i]) == d;
    } else {
      forall i | 0 <= i < m
        ensures d.totalRevenue <= rows[i].totalRevenue
        ensures rows[i].revenuePercentile <= Round3(ExactPercentRank(ds, d.totalRevenue))
      {
        assert CommissionDriver(rows[i]) == sorted[i];
        PercentRankBelow(ds, rows[i].totalRevenue, d.totalRevenue);
      }
    }
  }

  /** More revenue never means a higher (worse) percent rank. */
  lemma PercentRankBelow(ds: seq<DriverRevenue>, high: real, low: real)
    requires low <= high
    ensures Round3(ExactPercentRank(ds, high)) <= Round3(ExactPercentRank(ds, low))
  {
    var ks := Keys(ds, RevenueOf);
    TallyMonotoneInKey(Desc, ks, high, low, true);
    if |ds| > 1 {
      RatioMonotone(CountAhead(Desc, ks, high), CountAhead(Desc, ks, low), |ds| - 1);
    }
    RoundMonotone(ExactPercentRank(ds, high), ExactPercentRank(ds, low));
  }

  /** Every driver has at least one ride, so revenue per ride is never NULL; and because the
      percentile is rounded first, the top commission goes to exactly the drivers whose exact
      percent rank is below 0.2005, the growth pool to those at 0.5005 or above. */
  lemma CommissionTiersExact(ds: seq<DriverRevenue>)
    requires forall d :: d in ds ==> d.totalRides > 0
    ensures var rows := Commissions(ds);
      forall i :: 0 <= i < |rows| ==> rows[i].revenuePerRide.Some?
    ensures var rows := Commissions(ds);
      forall i :: 0 <= i < |rows| ==>
        (rows[i].tier.Top20? <==> ExactPercentRank(ds, rows[i].totalRevenue) < 0.2005) &&
        (rows[i].tier.GrowthPool? <==> ExactPercentRank(ds, rows[i].totalRevenue) >= 0.5005)
  {
    var rows := Commissions(ds);
    forall i | 0 <= i < |rows|
      ensures rows[i].revenuePerRide.Some?
      ensures rows[i].tier.Top20? <==> ExactPercentRank(ds, rows[i].totalRevenue) < 0.2005
      ensures rows[i].tier.GrowthPool? <==> ExactPercentRank(ds, rows[i].totalRevenue) >= 0.5005
    {
      assert CommissionDriver(rows[i]) in ds;
      var p := ExactPercentRank(ds, rows[i].totalRevenue);
      ExactPercentRankNonNegative(ds, rows[i].totalRevenue);
      CommissionTierOfRounded(p);
    }
  }

  lemma ExactPercentRankNonNegative(ds: seq<DriverRevenue>, revenue: real)
    ensures ExactPercentRank(ds, revenue) >= 0.0
  {
    if |ds| > 1 {
      var a := CountAhead(Desc, Keys(ds, RevenueOf), revenue) as real;
      var b := (|ds| - 1) as real;
      assert a >= 0.0 && b > 0.0;
    }
  }

  // ===========================================================================
  // Quality tiers: DENSE_RANK() OVER (ORDER BY AVG(rating) DESC) over drivers with ten rated rides

  /** A driver's rated rides: how many, and their exact average rating. */
  datatype DriverRating = DriverRating(driverName: string, ridesCompleted: nat, avgRating: real)

  const MinRatedRides: nat := 10

  predicate Rated(r: Ride) { r.rating.Some? }

  function RideRating(r: Ride): Option<real> { r.rating }

  function RatingOf(d: DriverRating): real { d.avgRating }

  /** COUNT(ride_id) and AVG(average_driver_rating) of one driver's rated rides. */
  function Rating(g: Group<string, Ride>): (d: DriverRating)
    requires |g.rows| > 0 && forall i :: 0 <= i < |g.rows| ==> Rated(g.rows[i])
    ensures d.driverName == g.key && d.ridesCompleted == |g.rows|
    ensures d.avgRating == Total(Values(Column(g.rows, RideRating))) / |g.rows| as real
    ensures Avg(Values(Column(g.rows, RideRating))) == Some(d.avgRating)
  {
    var vs := Values(Column(g.rows, RideRating));
    RatedValues(g.rows);
    DriverRating(g.key, |g.rows|, Avg(vs).value)
  }

  /** Every ride of a rated partition contributes its rating to AVG. */
  lemma RatedValues(rows: seq<Ride>)
    requires forall i :: 0 <= i < |rows| ==> Rated(rows[i])
    ensures |Values(Column(rows, RideRating))| == |rows|
  {
    var col := Column(rows, RideRating);
    assert forall i :: 0 <= i < |col| ==> col[i].Some?;
  }

  /** A driver's rated rides, in their original order. */
  function RatedRidesOf(rides: seq<Ride>, name: string): seq<Ride> {
    RowsWithKey(Filter(rides, Rated), RideDriverName, name)
  }

  /** WHERE average_driver_rating IS NOT NULL GROUP BY driver_name HAVING COUNT(ride_id) >= 10:
      each driver once, with the number of their rated rides and the mean of exactly those
      ratings. */
  function DriverRatings(rides: seq<Ride>): (ds: seq<DriverRating>)
    ensures |ds| == |HavingAtLeast(GroupBy(Filter(rides, Rated), RideDriverName), MinRatedRides)|
    ensures forall i :: 0 <= i < |ds| ==>
      ds[i].driverName == HavingAtLeast(GroupBy(Filter(rides, Rated), RideDriverName), MinRatedRides)[i].key
    ensures forall i, j :: 0 <= i < j < |ds| ==> ds[i].driverName != ds[j].driverName
    ensures forall i :: 0 <= i < |ds| ==>
      ds[i].ridesCompleted == CountWhere(Filter(rides, Rated), RideDriverName, ds[i].driverName) &&
      ds[i].ridesCompleted >= MinRatedRides
    ensures forall i :: 0 <= i < |ds| ==>
      Avg(Values(Column(RatedRidesOf(rides, ds[i].driverName), RideRating))) == Some(ds[i].avgRating)
  {
    var kept := HavingAtLeast(GroupBy(Filter(rides, Rated), RideDriverName), MinRatedRides);
    RatedGroups(rides, kept);
    var ds := RatingRows(kept);
    RatingRowsDescribe(rides, kept, ds);
    ds
  }

  /** One rating row per kept group. */
  function RatingRows(kept: seq<Group<string, Ride>>): (ds: seq<DriverRating>)
    requires forall i :: 0 <= i < |kept| ==>
      |kept[i].rows| > 0 && forall k :: 0 <= k < |kept[i].rows| ==> Rated(kept[i].rows[k])
    ensures |ds| == |kept|
    ensures forall i :: 0 <= i < |ds| ==> ds[i] == Rating(kept[i])
  {
    seq(|kept|, i requires 0 <= i < |kept| => Rating(kept[i]))
  }

  lemma RatingRowsDescribe(rides: seq<Ride>, kept: seq<Group<string, Ride>>, ds: seq<DriverRating>)
    requires forall i, j :: 0 <= i < j < |kept| ==> kept[i].key != kept[j].key
    requires forall i :: 0 <= i < |kept| ==>
      |kept[i].rows| >= MinRatedRides &&
      |kept[i].rows| == CountWhere(Filter(rides, Rated), RideDriverName, kept[i].key) &&
      kept[i].rows == RatedRidesOf(rides, kept[i].key) &&
      forall k :: 0 <= k < |kept[i].rows| ==> Rated(kept[i].rows[k])
    requires ds == RatingRows(kept)
    ensures forall i :: 0 <= i < |ds| ==> ds[i].driverName == kept[i].key
    ensures forall i, j :: 0 <= i < j < |ds| ==> ds[i].driverName != ds[j].driverName
    ensures forall i :: 0 <= i < |ds| ==>
      ds[i].ridesCompleted == CountWhere(Filter(rides, Rated), RideDriverName, ds[i].driverName) &&
      ds[i].ridesCompleted >= MinRatedRides
    ensures forall i :: 0 <= i < |ds| ==>
      Avg(Values(Column(RatedRidesOf(rides, ds[i].driverName), RideRating))) == Some(ds[i].avgRating)
  {
    forall i | 0 <= i < |ds|
      ensures ds[i].driverName == kept[i].key && ds[i].ridesCompleted == |kept[i].rows|
      ensures Avg(Values(Column(RatedRidesOf(rides, ds[i].driverName), RideRating))) == Some(ds[i].avgRating)
    {
      assert ds[i] == Rating(kept[i]);
    }
  }

  /** What DriverRatings needs about the groups that pass HAVING. */
  lemma RatedGroups(rides: seq<Ride>, kept: seq<Group<string, Ride>>)
    requires kept == HavingAtLeast(GroupBy(Filter(rides, Rated), RideDriverName), MinRatedRides)
    ensures forall i :: 0 <= i < |kept| ==>
      |kept[i].rows| >= MinRatedRides &&
      |kept[i].rows| == CountWhere(Filter(rides, Rated), RideDriverName, kept[i].key) &&
      kept[i].rows == RatedRidesOf(rides, kept[i].key) &&
      forall k :: 0 <= k < |kept[i].rows| ==> Rated(kept[i].rows[k])
  {
    var rated := Filter(rides, Rated);
    var gs := GroupBy(rated, RideDriverName);
    forall i | 0 <= i < |kept|
      ensures |kept[i].rows| >= MinRatedRides
      ensures |kept[i].rows| == CountWhere(rated, RideDriverName, kept[i].key)
      ensures kept[i].rows == RatedRidesOf(rides, kept[i].key)
      ensures forall k :: 0 <= k < |kept[i].rows| ==> Rated(kept[i].rows[k])
    {
      assert kept[i] in gs;
      var j :| 0 <= j < |gs| && gs[j] == kept[i];
      forall k | 0 <= k < |kept[i].rows| ensures Rated(kept[i].rows[k]) {
        assert kept[i].rows[k] in gs[j].rows;
      }
    }
  }

  /** A driver is ranked exactly when they have at least ten rated rides. */
  lemma DriverRatedIffEnoughRatings(rides: seq<Ride>, name: string)
    ensures (exists i :: 0 <= i < |DriverRatings(rides)| && DriverRatings(rides)[i].driverName == name)
        <==> CountWhere(Filter(rides, Rated), RideDriverName, name) >= MinRatedRides
  {
    var ds := DriverRatings(rides);
    var kept := HavingAtLeast(GroupBy(Filter(rides, Rated), RideDriverName), MinRatedRides);
    if CountWhere(Filter(rides, Rated), RideDriverName, name) >= MinRatedRides {
      HavingKeeps(Filter(rides, Rated), RideDriverName, MinRatedRides, name);
      var i :| 0 <= i < |kept| && kept[i].key == name;
      assert i < |ds| && ds[i].driverName == kept[i].key;
    }
  }

  datatype QualityRow = QualityRow(
    qualityTier: nat,
    driverName: string,
    ridesCompleted: nat,
    avgRating: real,
    tierName: QualityTier)

  function QualityTierDistribution(rides: seq<Ride>): seq<QualityRow> {
    QualityTiers(DriverRatings(rides))
  }

  /** The row describes driver `d` of `ds`: their name and ride count, their average rating
      rounded to two places, and as tier one more than the number of distinct averages above
      theirs. */
  predicate Describes(ds: seq<DriverRating>, r: QualityRow, d: DriverRating) {
    d in ds && r.driverName == d.driverName && r.ridesCompleted == d.ridesCompleted &&
    r.avgRating == Round2(d.avgRating) &&
    r.qualityTier == 1 + |DistinctAhead(Desc, Keys(ds, RatingOf), d.avgRating)|
  }

  /** Every driver of `ds` gets one row, in order of exact average rating, highest first: the
      i-th row describes the i-th driver of that order, with their dense rank (ties share a
      tier and the next tier follows without a gap) and the tier name of that rank. */
  function QualityTiers(ds: seq<DriverRating>): (rows: seq<QualityRow>)
    ensures |rows| == |ds|
    ensures forall i :: 0 <= i < |rows| ==> Describes(ds, rows[i], SortBy(ds, RatingOf, Desc)[i])
    ensures forall i :: 0 <= i < |rows| ==> rows[i].tierName == QualityTierOf(rows[i].qualityTier)
  {
    var sorted := SortBy(ds, RatingOf, Desc);
    var ks := Keys(sorted, RatingOf);
    SortedKeysOf(sorted, RatingOf, Desc);
    var dr := DenseRanks(Desc, ks);
    var rows := QualityRows(sorted, dr);
    QualityRowsDescribe(ds, sorted, ks, dr, rows);
    rows
  }

  lemma QualityRowsDescribe(ds: seq<DriverRating>, sorted: seq<DriverRating>, ks: seq<real>, dr: seq<nat>, rows: seq<QualityRow>)
    requires sorted == SortBy(ds, RatingOf, Desc) && ks == Keys(sorted, RatingOf)
    requires SortedKeys(Desc, ks) && dr == DenseRanks(Desc, ks) && rows == QualityRows(sorted, dr)
    ensures forall i :: 0 <= i < |rows| ==> Describes(ds, rows[i], sorted[i])
  {
    DenseRankColumn(ds, sorted, ks, dr);
  }

  function QualityRows(sorted: seq<DriverRating>, dr: seq<nat>): (rows: seq<QualityRow>)
    requires |dr| == |sorted|
    ensures |rows| == |sorted|
    ensures forall i :: 0 <= i < |rows| ==>
      rows[i].driverName == sorted[i].driverName && rows[i].ridesCompleted == sorted[i].ridesCompleted &&
      rows[i].avgRating == Round2(sorted[i].avgRating)
    ensures forall i :: 0 <= i < |rows| ==> rows[i].qualityTier == dr[i] && rows[i].tierName == QualityTierOf(dr[i])
  {
    seq(|sorted|, i requires 0 <= i < |sorted| =>
      QualityRow(dr[i], sorted[i].driverName, sorted[i].ridesCompleted, Round2(sorted[i].avgRating), QualityTierOf(dr[i])))
  }

  /** The facts QualityTiers needs about the dense ranks of the sorted drivers. */
  lemma DenseRankColumn(ds: seq<DriverRating>, sorted: seq<DriverRating>, ks: seq<real>, dr: seq<nat>)
    requires sorted == SortBy(ds, RatingOf, Desc) && ks == Keys(sorted, RatingOf)
    requires SortedKeys(Desc, ks) && dr == DenseRanks(Desc, ks)
    ensures forall i :: 0 <= i < |sorted| ==> sorted[i] in ds
    ensures forall i :: 0 <= i < |sorted| ==> dr[i] == 1 + |DistinctAhead(Desc, Keys(ds, RatingOf), sorted[i].avgRating)|
  {
    SortedMembers(ds, RatingOf, Desc);
    forall i | 0 <= i < |sorted|
      ensures dr[i] == 1 + |DistinctAhead(Desc, Keys(ds, RatingOf), sorted[i].avgRating)|
    {
      RankIndependentOfTies(Desc, ks, Keys(ds, RatingOf), i);
    }
  }

  /** The rows come in tier order (ORDER BY quality_tier) with rounded ratings not rising;
      the first row is tier 1, so the best-rated driver is "Platinum (4.8+)" whatever their
      rating, and each row's tier is the previous one's or the next. */
  lemma QualityTiersOrdered(ds: seq<DriverRating>)
    ensures var rows := QualityTiers(ds);
      forall i, j :: 0 <= i < j < |rows| ==>
        rows[i].qualityTier <= rows[j].qualityTier && rows[i].avgRating >= rows[j].avgRating
    ensures var rows := QualityTiers(ds);
      |rows| > 0 ==> rows[0].qualityTier == 1 && rows[0].tierName == Platinum
    ensures var rows := QualityTiers(ds);
      forall i :: 0 < i < |rows| ==>
        rows[i].qualityTier == rows[i - 1].qualityTier || rows[i].qualityTier == rows[i - 1].qualityTier + 1
  {
    var sorted := SortBy(ds, RatingOf, Desc);
    var ks := Keys(sorted, RatingOf);
    SortedKeysOf(sorted, RatingOf, Desc);
    var dr := DenseRanks(Desc, ks);
    var rows := QualityTiers(ds);
    assert rows == QualityRows(sorted, dr);
    forall i, j | 0 <= i < j < |rows|
      ensures rows[i].qualityTier <= rows[j].qualityTier && rows[i].avgRating >= rows[j].avgRating
    {
      DenseRankMonotone(ks, i, j);
      RoundMonotone(ks[j], ks[i]);
    }
    forall i | 0 <= i < |rows| ensures i == 0 ==> rows[i].qualityTier == 1 {
      DenseRankNoGaps(Desc, ks, i);
    }
    forall i | 0 < i < |rows|
      ensures rows[i].qualityTier == rows[i - 1].qualityTier || rows[i].qualityTier == rows[i - 1].qualityTier + 1
    {
      DenseRankNoGaps(Desc, ks, i);
    }
  }

  lemma DenseRankMonotone(ks: seq<real>, i: nat, j: nat)
    requires SortedKeys(Desc, ks) && i <= j < |ks|
    ensures DenseRanks(Desc, ks)[i] <= DenseRanks(Desc, ks)[j]
  {
    var a := DistinctAhead(Desc, ks, ks[i]);
    var b := DistinctAhead(Desc, ks, ks[j]);
    assert a <= b;
    assert b == a + (b - a);
  }

  // ===========================================================================
  // Customer value segments: NTILE(4) OVER (ORDER BY SUM(fare_amount) DESC)

  /** One customer's rides: how many, the fares they paid in total, and their mean distance. */
  datatype CustomerAggregate = CustomerAggregate(
    maskedName: string,
    totalRides: nat,
    totalFareSpent: real,
    avgDistanceKm: real)

  const SegmentCount: nat := 4

  function RideCustomer(r: Ride): string { r.customerName }

  function RideDistance(r: Ride): real { r.distanceKm }

  function FareSpentOf(c: CustomerAggregate): real { c.totalFareSpent }

  function Customer(g: Group<string, Ride>): (c: CustomerAggregate)
    requires |g.rows| > 0
    ensures c.maskedName == g.key && c.totalRides == |g.rows|
    ensures c.totalFareSpent == Total(Column(g.rows, RideFare))
    ensures c.avgDistanceKm * |g.rows| as real == Total(Column(g.rows, RideDistance))
    ensures Avg(Column(g.rows, RideDistance)) == Some(c.avgDistanceKm)
  {
    CustomerAggregate(g.key, |g.rows|, Total(Column(g.rows, RideFare)), Avg(Column(g.rows, RideDistance)).value)
  }

  /** A customer's rides, in their original order. */
  function TripsOf(rides: seq<Ride>, name: string): seq<Ride> {
    RowsWithKey(rides, RideCustomer, name)
  }

  /** GROUP BY masked_name: each customer once (CustomerListed says which customers), with
      their number of rides, the sum of exactly their fares and the mean of exactly their
      distances. */
  function CustomerAggregates(rides: seq<Ride>): (cs: seq<CustomerAggregate>)
    ensures |cs| == |GroupBy(rides, RideCustomer)|
    ensures forall i :: 0 <= i < |cs| ==> cs[i].maskedName == GroupBy(rides, RideCustomer)[i].key
    ensures forall i, j :: 0 <= i < j < |cs| ==> cs[i].maskedName != cs[j].maskedName
    ensures forall i :: 0 <= i < |cs| ==>
      cs[i].totalRides == CountWhere(rides, RideCustomer, cs[i].maskedName) && cs[i].totalRides > 0
    ensures forall i :: 0 <= i < |cs| ==>
      var own := TripsOf(rides, cs[i].maskedName);
      cs[i].totalRides == |own| &&
      cs[i].totalFareSpent == Total(Column(own, RideFare)) &&
      Avg(Column(own, RideDistance)) == Some(cs[i].avgDistanceKm)
  {
    var gs := GroupBy(rides, RideCustomer);
    var cs := seq(|gs|, i requires 0 <= i < |gs| => Customer(gs[i]));
    forall i | 0 <= i < |cs|
      ensures var own := TripsOf(rides, cs[i].maskedName);
        cs[i].totalRides == |own| &&
        cs[i].totalFareSpent == Total(Column(own, RideFare)) &&
        Avg(Column(own, RideDistance)) == Some(cs[i].avgDistanceKm)
    {
      var c := Customer(gs[i]);
      assert cs[i] == c && c.maskedName == gs[i].key;
      assert gs[i].rows == TripsOf(rides, gs[i].key);
    }
    cs
  }

  /** A customer has a row exactly when they have a ride. */
  lemma CustomerListed(rides: seq<Ride>, name: string)
    ensures (exists i :: 0 <= i < |CustomerAggregates(rides)| && CustomerAggregates(rides)[i].maskedName == name)
        <==> CountWhere(rides, RideCustomer, name) > 0
  {
    var cs := CustomerAggregates(rides);
    var gs := GroupBy(rides, RideCustomer);
    GroupByKeys(rides, RideCustomer, name);
    if exists i :: 0 <= i < |gs| && gs[i].key == name {
      var i :| 0 <= i < |gs| && gs[i].key == name;
      assert cs[i].maskedName == name;
    }
    if exists i :: 0 <= i < |cs| && cs[i].maskedName == name {
      var i :| 0 <= i < |cs| && cs[i].maskedName == name;
      assert i < |gs| && cs[i].maskedName == gs[i].key;
    }
  }

  datatype SegmentRow = SegmentRow(
    customerValueQuartile: nat,
    maskedName: string,
    totalRides: nat,
    totalFareSpent: real,
    avgDistanceKm: real,
    segment: CustomerSegment)

  function SegmentCustomer(r: SegmentRow): CustomerAggregate {
    CustomerAggregate(r.maskedName, r.totalRides, r.totalFareSpent, r.avgDistanceKm)
  }

  function CustomerValueSegments(rides: seq<Ride>): seq<SegmentRow> {
    Segments(CustomerAggregates(rides))
  }

  /** Every customer once, in order of fare spent, highest first; the i-th of them is in
      quartile NTILE(4) of position i, so the quartiles split the customers into four runs
      whose sizes differ by at most one, larger runs first. */
  function Segments(cs: seq<CustomerAggregate>): (rows: seq<SegmentRow>)
    ensures multiset(Column(rows, SegmentCustomer)) == multiset(cs)
    ensures forall i, j :: 0 <= i < j < |rows| ==> rows[i].totalFareSpent >= rows[j].totalFareSpent
    ensures forall i :: 0 <= i < |rows| ==> rows[i].customerValueQuartile == Ntile(|cs|, SegmentCount, i)
    ensures forall i :: 0 <= i < |rows| ==> rows[i].segment == CustomerSegmentOf(rows[i].customerValueQuartile)
  {
    var sorted := SortBy(cs, FareSpentOf, Desc);
    SegmentRows(sorted)
  }

  function SegmentRows(sorted: seq<CustomerAggregate>): (rows: seq<SegmentRow>)
    ensures Column(rows, SegmentCustomer) == sorted
    ensures |rows| == |sorted|
    ensures forall i :: 0 <= i < |rows| ==>
      rows[i].customerValueQuartile == Ntile(|sorted|, SegmentCount, i) &&
      rows[i].segment == CustomerSegmentOf(rows[i].customerValueQuartile)
  {
    var rows := seq(|sorted|, i requires 0 <= i < |sorted| =>
      var q := Ntile(|sorted|, SegmentCount, i);
      SegmentRow(q, sorted[i].maskedName, sorted[i].totalRides, sorted[i].totalFareSpent, sorted[i].avgDistanceKm,
        CustomerSegmentOf(q)));
    assert Column(rows, SegmentCustomer) == sorted;
    rows
  }

  /** The rows already satisfy ORDER BY customer_value_quartile, total_fare_spent DESC, and a
      customer who spent strictly more is never in a lower segment. */
  lemma SegmentsOrdered(cs: seq<CustomerAggregate>)
    ensures var rows := Segments(cs);
      forall i, j :: 0 <= i < j < |rows| ==> rows[i].customerValueQuartile <= rows[j].customerValueQuartile
    ensures var rows := Segments(cs);
      forall i, j :: 0 <= i < |rows| && 0 <= j < |rows| && rows[i].totalFareSpent > rows[j].totalFareSpent ==>
        rows[i].customerValueQuartile <= rows[j].customerValueQuartile
  {
    var rows := Segments(cs);
    forall i, j | 0 <= i < j < |rows|
      ensures rows[i].customerValueQuartile <= rows[j].customerValueQuartile
    {
      NtileMonotone(|cs|, SegmentCount, i, j);
    }
  }

  /** With at least four customers every segment is used: the first customer is VIP and the
      last is Basic. */
  lemma SegmentsComplete(cs: seq<CustomerAggregate>)
    requires |cs| >= SegmentCount
    ensures Segments(cs)[0].segment == Vip
    ensures Segments(cs)[|cs| - 1].segment == Basic
  {
    NtileBucket(|cs|, SegmentCount, 0, 1);
    NtileLast(|cs|, SegmentCount);
  }

  // ===========================================================================
  // Partitions: PARTITION BY driver_key ORDER BY start_time

  function RideDriverKey(r: Ride): int { r.driverKey }

  function RideStart(r: Ride): int { r.startTime }

  function StartKey(r: Ride): real { r.startTime as real }

  /** One driver's partition: their rides, in their original order. */
  function DriverRides(rides: seq<Ride>, key: int): seq<Ride> {
    RowsWithKey(rides, RideDriverKey, key)
  }

  /** The rides of one partition in ORDER BY start_time order; rides that start at the same
      second keep their input order. */
  function InStartOrder(part: seq<Ride>): (sorted: seq<Ride>)
    ensures |sorted| == |part| && multiset(sorted) == multiset(part)
    ensures forall i, j :: 0 <= i < j < |sorted| ==> sorted[i].startTime <= sorted[j].startTime
  {
    var sorted := SortBy(part, StartKey, Asc);
    assert forall i, j :: 0 <= i < j < |sorted| ==> !Ahead(Asc, StartKey(sorted[j]), StartKey(sorted[i]));
    sorted
  }

  // ===========================================================================
  // Churn risk: LEAD(start_time) OVER (PARTITION BY driver_key ORDER BY start_time)

  /** The drivers the churn report watches (WHERE driver_key IN (1, 5, 10, 15, 20)). */
  const WatchedDrivers: set<int> := {1, 5, 10, 15, 20}

  predicate Watched(r: Ride) { r.driverKey in WatchedDrivers }

  /** A ride with the start of its driver's next ride, NULL for the driver's last ride. */
  datatype RideWithLead = RideWithLead(ride: Ride, nextRideStart: Option<int>)

  predicate HasNextRide(x: RideWithLead) { x.nextRideStart.Some? }

  function WithLead(sorted: seq<Ride>): (ls: seq<RideWithLead>)
    ensures |ls| == |sorted|
    ensures forall i :: 0 <= i < |ls| ==> ls[i].ride == sorted[i] && ls[i].nextRideStart == Lead(Column(sorted, RideStart), i)
  {
    var starts := Column(sorted, RideStart);
    seq(|sorted|, i requires 0 <= i < |sorted| => RideWithLead(sorted[i], Lead(starts, i)))
  }

  datatype ChurnRow = ChurnRow(
    driverName: string,
    currentRideStart: int,
    currentRideEnd: int,
    currentFare: real,
    idleSeconds: int,
    risk: RetentionRisk)

  /** The idle time from the end of the ride to the start of the next, and its CASE label. */
  function ChurnRowOf(x: RideWithLead): (r: ChurnRow)
    requires HasNextRide(x)
    ensures r.idleSeconds == x.nextRideStart.value - x.ride.endTime
    ensures r.risk == RetentionRiskOf(Some(r.idleSeconds))
  {
    var idle := x.nextRideStart.value - x.ride.endTime;
    ChurnRow(x.ride.driverName, x.ride.startTime, x.ride.endTime, x.ride.fare, idle, RetentionRiskOf(Some(idle)))
  }

  /** Row `r` describes ride `i` of a partition in start order and the ride after it. */
  predicate ChurnDescribes(sorted: seq<Ride>, i: nat, r: ChurnRow)
    requires i + 1 < |sorted|
  {
    r.driverName == sorted[i].driverName && r.currentRideStart == sorted[i].startTime &&
    r.currentRideEnd == sorted[i].endTime && r.currentFare == sorted[i].fare &&
    r.idleSeconds == sorted[i + 1].startTime - sorted[i].endTime
  }

  function ChurnRows(sorted: seq<Ride>, kept: seq<RideWithLead>): (rows: seq<ChurnRow>)
    requires |sorted| > 0 && kept == WithLead(sorted)[..|sorted| - 1]
    ensures |rows| == |sorted| - 1
    ensures forall i :: 0 <= i < |rows| ==> ChurnDescribes(sorted, i, rows[i])
    ensures forall i :: 0 <= i < |rows| ==> rows[i].risk == RetentionRiskOf(Some(rows[i].idleSeconds))
  {
    seq(|kept|, i requires 0 <= i < |kept| => ChurnRowOf(kept[i]))
  }

  /** One driver's part of the churn report: every ride but the last in start order, each
      with the idle time until the ride after it (WHERE next_ride_start IS NOT NULL). */
  function DriverChurn(part: seq<Ride>): (rows: seq<ChurnRow>)
    ensures |rows| == if |part| == 0 then 0 else |part| - 1
    ensures forall i :: 0 <= i < |rows| ==> ChurnDescribes(InStartOrder(part), i, rows[i])
    ensures forall i :: 0 <= i < |rows| ==> rows[i].risk == RetentionRiskOf(Some(rows[i].idleSeconds))
  {
    var sorted := InStartOrder(part);
    var ls := WithLead(sorted);
    if |ls| == 0 then []
    else
      OnlyLastRideHasNoNext(sorted);
      ChurnRows(sorted, Filter(ls, HasNextRide))
  }

  /** Only a driver's last ride has no next ride, so the filter drops exactly that one. */
  lemma OnlyLastRideHasNoNext(sorted: seq<Ride>)
    requires |sorted| > 0
    ensures Filter(WithLead(sorted), HasNextRide) == WithLead(sorted)[..|sorted| - 1]
  {
    FilterDropsLast(WithLead(sorted), HasNextRide);
  }

  /** The churn report before its ORDER BY and LIMIT: the watched drivers' partitions, one
      after another. No row is ever labelled "Last ride", because the last ride of each
      driver is filtered out. */
  function ChurnRiskMatrix(rides: seq<Ride>): (rows: seq<ChurnRow>)
    ensures forall r :: r in rows ==> r.risk == RetentionRiskOf(Some(r.idleSeconds)) && !r.risk.LastRide?
  {
    Flatten(ChurnParts(GroupBy(Filter(rides, Watched), RideDriverKey)))
  }

  function ChurnParts(gs: seq<Group<int, Ride>>): (parts: seq<seq<ChurnRow>>)
    ensures |parts| == |gs|
    ensures forall j :: 0 <= j < |gs| ==> parts[j] == DriverChurn(gs[j].rows)
    ensures forall j, r :: 0 <= j < |parts| && r in parts[j] ==> r.risk == RetentionRiskOf(Some(r.idleSeconds))
  {
    var parts := seq(|gs|, i requires 0 <= i < |gs| => DriverChurn(gs[i].rows));
    assert forall j, r :: 0 <= j < |parts| && r in parts[j] ==> r.risk == RetentionRiskOf(Some(r.idleSeconds)) by {
      forall j, r | 0 <= j < |parts| && r in parts[j] ensures r.risk == RetentionRiskOf(Some(r.idleSeconds)) {
        var i :| 0 <= i < |parts[j]| && parts[j][i] == r;
      }
    }
    parts
  }

  /** The churn report is the watched drivers' churn rows one partition after another, one
      partition per watched driver with rides, each partition in start order. */
  lemma ChurnRiskMatrixOrder(rides: seq<Ride>)
    ensures var gs := GroupBy(Filter(rides, Watched), RideDriverKey);
      var parts := ChurnParts(gs);
      ChurnRiskMatrix(rides) == Flatten(parts) &&
      (forall i, j :: 0 <= i < j < |gs| ==> gs[i].key != gs[j].key) &&
      forall j :: 0 <= j < |gs| ==>
        gs[j].key in WatchedDrivers && parts[j] == DriverChurn(DriverRides(rides, gs[j].key))
  {
    var gs := GroupBy(Filter(rides, Watched), RideDriverKey);
    var parts := ChurnParts(gs);
    forall j | 0 <= j < |gs|
      ensures gs[j].key in WatchedDrivers && parts[j] == DriverChurn(DriverRides(rides, gs[j].key))
    {
      WatchedPartition(rides, gs, j);
      assert parts[j] == DriverChurn(gs[j].rows);
    }
  }

  /** The churn report holds exactly the rows of the watched drivers' own churn rows: a row
      is reported when, and only when, it is one of DriverChurn's rows for the rides of a
      driver whose key is 1, 5, 10, 15 or 20. */
  lemma ChurnRiskMatrixRows(rides: seq<Ride>, r: ChurnRow)
    ensures r in ChurnRiskMatrix(rides) <==>
      exists k :: k in WatchedDrivers && r in DriverChurn(DriverRides(rides, k))
  {
    if r in ChurnRiskMatrix(rides) {
      ReportedChurnRow(rides, r);
    }
    if exists k :: k in WatchedDrivers && r in DriverChurn(DriverRides(rides, k)) {
      var k :| k in WatchedDrivers && r in DriverChurn(DriverRides(rides, k));
      WatchedChurnRow(rides, k, r);
    }
  }

  lemma ReportedChurnRow(rides: seq<Ride>, r: ChurnRow)
    requires r in ChurnRiskMatrix(rides)
    ensures exists k :: k in WatchedDrivers && r in DriverChurn(DriverRides(rides, k))
  {
    var gs := GroupBy(Filter(rides, Watched), RideDriverKey);
    var parts := ChurnParts(gs);
    assert r in Flatten(parts);
    var j :| 0 <= j < |parts| && r in parts[j];
    WatchedPartition(rides, gs, j);
    assert r in DriverChurn(DriverRides(rides, gs[j].key));
  }

  lemma WatchedChurnRow(rides: seq<Ride>, k: int, r: ChurnRow)
    requires k in WatchedDrivers && r in DriverChurn(DriverRides(rides, k))
    ensures r in ChurnRiskMatrix(rides)
  {
    var watched := Filter(rides, Watched);
    var gs := GroupBy(watched, RideDriverKey);
    var parts := ChurnParts(gs);
    var own := DriverRides(rides, k);
    assert |own| > 0;
    assert own[0] in own;
    assert own[0] in watched;
    GroupByCovers(watched, RideDriverKey, own[0]);
    var j :| 0 <= j < |gs| && gs[j].key == k;
    WatchedPartition(rides, gs, j);
    assert r in parts[j];
  }

  /** Each group of the watched rides is a watched driver's whole partition. */
  lemma WatchedPartition(rides: seq<Ride>, gs: seq<Group<int, Ride>>, j: nat)
    requires gs == GroupBy(Filter(rides, Watched), RideDriverKey) && j < |gs|
    ensures gs[j].key in WatchedDrivers && gs[j].rows == DriverRides(rides, gs[j].key)
  {
    var k := gs[j].key;
    assert gs[j].rows[0] in gs[j].rows;
    assert Watched(gs[j].rows[0]);
    FilterNarrower(rides, Watched, KeyIs(RideDriverKey, k));
  }

  /** The next ride never starts earlier than the current one. */
  lemma ChurnNextRideLater(part: seq<Ride>)
    ensures var rows := DriverChurn(part);
      forall i :: 0 <= i < |rows| ==> rows[i].idleSeconds >= rows[i].currentRideStart - rows[i].currentRideEnd
    ensures var rows := DriverChurn(part);
      forall i, j :: 0 <= i < j < |rows| ==> rows[i].currentRideStart <= rows[j].currentRideStart
  {
    var sorted := InStartOrder(part);
    var rows := DriverChurn(part);
    forall i | 0 <= i < |rows|
      ensures rows[i].idleSeconds >= rows[i].currentRideStart - rows[i].currentRideEnd
    {
      assert ChurnDescribes(sorted, i, rows[i]);
      assert sorted[i].startTime <= sorted[i + 1].startTime;
    }
    forall i, j | 0 <= i < j < |rows|
      ensures rows[i].currentRideStart <= rows[j].currentRideStart
    {
      assert ChurnDescribes(sorted, i, rows[i]) && ChurnDescribes(sorted, j, rows[j]);
    }
  }

  // ===========================================================================
  // Driver progression: ROW_NUMBER and FIRST_VALUE(fare) over the driver's rides by start time

  /** The drivers the progression report shows. */
  const FeaturedDrivers: set<string> :=
    {"Joann Wolfe", "Jeremy Bautista", "Christina Chang", "Mark Davis", "Brooke Snyder"}

  datatype ProgressionRow = ProgressionRow(
    driverName: string,
    rideNumber: nat,
    currentRideStart: int,
    currentFare: real,
    firstEverFare: real,
    fareImprovement: real,
    improvementPercent: Option<real>,
    trend: ProgressionTrend)

  predicate Featured(r: ProgressionRow) { r.driverName in FeaturedDrivers }

  /** `part / NULLIF(whole, 0) * 100`: NULL when `whole` is zero. */
  function Percent(part: real, whole: real): (r: Option<real>)
    ensures r.None? <==> whole == 0.0
    ensures r.Some? ==> r.value * whole == part * 100.0
  {
    match DivideOrNull(part, whole)
    case None => None
    case Some(q) => Some(q * 100.0)
  }

  /** Row `i` of a partition in start order: its ride number, the fare of the partition's
      first ride over the whole frame, the gain over it, and the trend label of that gain. */
  function ProgressionAt(sorted: seq<Ride>, i: nat): (r: ProgressionRow)
    requires i < |sorted|
    ensures r.driverName == sorted[i].driverName && r.currentRideStart == sorted[i].startTime
    ensures r.rideNumber == i + 1 && r.currentFare == sorted[i].fare
    ensures Some(r.firstEverFare) == NthValue(Column(sorted, RideFare), Keys(sorted, StartKey), WholePartition, i, 1)
    ensures r.fareImprovement == r.currentFare - r.firstEverFare
    ensures r.improvementPercent == Percent(r.fareImprovement, r.firstEverFare)
    ensures r.trend == ProgressionTrendOf(r.fareImprovement)
  {
    var fares := Column(sorted, RideFare);
    var first := FirstValue(fares, Keys(sorted, StartKey), WholePartition, i);
    var gain := sorted[i].fare - first;
    ProgressionRow(sorted[i].driverName, i + 1, sorted[i].startTime, sorted[i].fare, first, gain,
      Percent(gain, first), ProgressionTrendOf(gain))
  }

  function DriverProgression(part: seq<Ride>): (rows: seq<ProgressionRow>)
    ensures |rows| == |part|
    ensures forall i :: 0 <= i < |rows| ==> rows[i] == ProgressionAt(InStartOrder(part), i)
  {
    var sorted := InStartOrder(part);
    seq(|sorted|, i requires 0 <= i < |sorted| => ProgressionAt(sorted, i))
  }

  /** The progression report before its ORDER BY and LIMIT: every driver's rides numbered in
      start order, kept only for the featured drivers (the WHERE comes after the windows). */
  function DriverProgressionReport(rides: seq<Ride>): (rows: seq<ProgressionRow>)
    ensures forall r :: r in rows ==> r.driverName in FeaturedDrivers
  {
    Filter(Flatten(ProgressionParts(GroupBy(rides, RideDriverKey))), Featured)
  }

  function ProgressionParts(gs: seq<Group<int, Ride>>): (parts: seq<seq<ProgressionRow>>)
    ensures |parts| == |gs|
    ensures forall j :: 0 <= j < |gs| ==> parts[j] == DriverProgression(gs[j].rows)
  {
    seq(|gs|, i requires 0 <= i < |gs| => DriverProgression(gs[i].rows))
  }

  /** The report keeps every featured row and nothing else: a row is reported when, and only
      when, it belongs to a featured driver and is one of DriverProgression's rows for some
      driver's partition. */
  lemma ProgressionReportRows(rides: seq<Ride>, r: ProgressionRow)
    ensures r in DriverProgressionReport(rides) <==>
      r.driverName in FeaturedDrivers && exists k :: r in DriverProgression(DriverRides(rides, k))
  {
    if r in DriverProgressionReport(rides) {
      ReportedProgressionRow(rides, r);
    }
    if r.driverName in FeaturedDrivers && exists k :: r in DriverProgression(DriverRides(rides, k)) {
      var k :| r in DriverProgression(DriverRides(rides, k));
      FeaturedProgressionRow(rides, k, r);
    }
  }

  /** The report is each driver's featured rows, one partition after another, each partition
      in ride-number order. */
  lemma ProgressionReportOrder(rides: seq<Ride>)
    ensures DriverProgressionReport(rides) ==
      Flatten(FilterEach(ProgressionParts(GroupBy(rides, RideDriverKey)), Featured))
  {
    FilterFlatten(ProgressionParts(GroupBy(rides, RideDriverKey)), Featured);
  }

  lemma ReportedProgressionRow(rides: seq<Ride>, r: ProgressionRow)
    requires r in DriverProgressionReport(rides)
    ensures r.driverName in FeaturedDrivers && exists k :: r in DriverProgression(DriverRides(rides, k))
  {
    var gs := GroupBy(rides, RideDriverKey);
    var parts := ProgressionParts(gs);
    assert r in Flatten(parts);
    var j :| 0 <= j < |parts| && r in parts[j];
    assert gs[j].rows == DriverRides(rides, gs[j].key);
    assert r in DriverProgression(DriverRides(rides, gs[j].key));
  }

  lemma FeaturedProgressionRow(rides: seq<Ride>, k: int, r: ProgressionRow)
    requires r.driverName in FeaturedDrivers && r in DriverProgression(DriverRides(rides, k))
    ensures r in DriverProgressionReport(rides)
  {
    var gs := GroupBy(rides, RideDriverKey);
    var parts := ProgressionParts(gs);
    var own := DriverRides(rides, k);
    assert |own| > 0;
    assert own[0] in own;
    GroupByCovers(rides, RideDriverKey, own[0]);
    var j :| 0 <= j < |gs| && gs[j].key == k;
    assert gs[j].rows == own;
    assert r in parts[j];
    assert r in Flatten(parts);
  }

  /** A driver's first ride is their baseline: it gains nothing and is "Stable", and its
      percentage is 0, or NULL for a free first ride. */
  lemma FirstRideIsBaseline(part: seq<Ride>)
    requires |part| > 0
    ensures var r := DriverProgression(part)[0];
      r.rideNumber == 1 && r.fareImprovement == 0.0 && r.trend == Stable &&
      r.improvementPercent == (if r.firstEverFare == 0.0 then None else Some(0.0))
  {
    var sorted := InStartOrder(part);
    var r := DriverProgression(part)[0];
    assert r == ProgressionAt(sorted, 0);
    assert r.firstEverFare == sorted[0].fare;
  }

  /** Every row of a driver is measured against the same first fare. */
  lemma SameBaseline(part: seq<Ride>, i: nat, j: nat)
    requires i < |part| && j < |part|
    ensures DriverProgression(part)[i].firstEverFare == DriverProgression(part)[j].firstEverFare
  {
    var sorted := InStartOrder(part);
    NthValueBroadcast(Column(sorted, RideFare), Keys(sorted, StartKey), i, j, 1);
  }

  // ===========================================================================
  // Quality trend alerts: LAST_VALUE(rating) over the whole partition against the lifetime AVG

  datatype QualityTrendRow = QualityTrendRow(
    driverName: string,
    totalRides: nat,
    lifetimeAvgRating: real,
    mostRecentRating: real,
    recentTrend: real,
    flag: Option<QualityTrendFlag>)

  predicate AllRated(part: seq<Ride>) { forall j :: 0 <= j < |part| ==> Rated(part[j]) }

  /** Row `i` of a driver's rated rides in start order. Every column but the name is a
      whole-partition value, the same at every row: the count, the lifetime average rating,
      the rating of the latest ride, and the gap between the two, which is already a multiple
      of 0.01, so the displayed trend is the exact value the flag is chosen by. */
  function QualityTrendAt(sorted: seq<Ride>, i: nat): (r: QualityTrendRow)
    requires i < |sorted| && AllRated(sorted)
    ensures r.driverName == sorted[i].driverName && r.totalRides == |sorted|
    ensures r.lifetimeAvgRating == Round2(Total(Values(Column(sorted, RideRating))) / |sorted| as real)
    ensures r.mostRecentRating == Round2(sorted[|sorted| - 1].rating.value)
    ensures r.recentTrend == r.mostRecentRating - r.lifetimeAvgRating
    ensures r.flag.Some? && r.flag == QualityTrendFlagOf(Some(r.recentTrend))
  {
    var col := Column(sorted, RideRating);
    var ratings := Values(col);
    assert |ratings| == |sorted|;
    var mean := Avg(ratings).value;
    assert mean == Total(ratings) / |sorted| as real;
    var lifetime := Round2(mean);
    LastValueWholePartition(col, Keys(sorted, StartKey), i);
    var latest := LastValue(col, Keys(sorted, StartKey), WholePartition, i).value;
    assert latest == sorted[|sorted| - 1].rating.value;
    var recent := Round2(latest);
    Round2Difference(latest, mean);
    QualityTrendRow(sorted[i].driverName, |sorted|, lifetime, recent, Round2(recent - lifetime),
      QualityTrendFlagOf(Some(recent - lifetime)))
  }

  /** The rows of a group of rated rides are all rated, in any order. */
  lemma RatedPartition(rides: seq<Ride>, g: Group<int, Ride>)
    requires forall x :: x in g.rows ==> x in Filter(rides, Rated)
    ensures AllRated(InStartOrder(g.rows))
  {
    var sorted := InStartOrder(g.rows);
    forall j | 0 <= j < |sorted| ensures Rated(sorted[j]) {
      assert sorted[j] in multiset(g.rows);
      assert sorted[j] in g.rows;
    }
  }

  /** One driver's partition of rated rides (WHERE average_driver_rating IS NOT NULL). */
  function RatedDriverRides(rides: seq<Ride>, key: int): seq<Ride> {
    RowsWithKey(Filter(rides, Rated), RideDriverKey, key)
  }

  /** The CTE driver_quality_trends at rn = 1: one row per driver with a rated ride, counting
      that driver's rated rides; each row is the row of the last of that driver's rated rides
      in start order. */
  function QualityTrends(rides: seq<Ride>): (ts: seq<QualityTrendRow>)
    ensures |ts| == |GroupBy(Filter(rides, Rated), RideDriverKey)|
    ensures forall i :: 0 <= i < |ts| ==>
      ts[i].totalRides == CountWhere(Filter(rides, Rated), RideDriverKey, GroupBy(Filter(rides, Rated), RideDriverKey)[i].key)
    ensures forall i :: 0 <= i < |ts| ==>
      var sorted := InStartOrder(RatedDriverRides(rides, GroupBy(Filter(rides, Rated), RideDriverKey)[i].key));
      |sorted| > 0 && AllRated(sorted) && ts[i] == QualityTrendAt(sorted, |sorted| - 1)
    ensures forall t :: t in ts ==> t.totalRides > 0 && t.flag == QualityTrendFlagOf(Some(t.recentTrend))
  {
    var gs := GroupBy(Filter(rides, Rated), RideDriverKey);
    var ts := TrendRows(rides, gs);
    TrendRowsDescribe(rides, gs, ts);
    ts
  }

  /** One rn = 1 row per group of rated rides. */
  function TrendRows(rides: seq<Ride>, gs: seq<Group<int, Ride>>): (ts: seq<QualityTrendRow>)
    requires forall i :: 0 <= i < |gs| ==> |gs[i].rows| > 0 && forall x :: x in gs[i].rows ==> x in Filter(rides, Rated)
    ensures |ts| == |gs|
    ensures forall i :: 0 <= i < |ts| ==> ts[i] == PartitionTrend(rides, gs[i])
    ensures forall t :: t in ts ==> t.totalRides > 0 && t.flag == QualityTrendFlagOf(Some(t.recentTrend))
  {
    seq(|gs|, i requires 0 <= i < |gs| => PartitionTrend(rides, gs[i]))
  }

  lemma TrendRowsDescribe(rides: seq<Ride>, gs: seq<Group<int, Ride>>, ts: seq<QualityTrendRow>)
    requires gs == GroupBy(Filter(rides, Rated), RideDriverKey) && ts == TrendRows(rides, gs)
    ensures forall i :: 0 <= i < |ts| ==> ts[i].totalRides == CountWhere(Filter(rides, Rated), RideDriverKey, gs[i].key)
    ensures forall i :: 0 <= i < |ts| ==>
      var sorted := InStartOrder(RatedDriverRides(rides, gs[i].key));
      |sorted| > 0 && AllRated(sorted) && ts[i] == QualityTrendAt(sorted, |sorted| - 1)
  {
    forall i | 0 <= i < |ts|
      ensures ts[i].totalRides == CountWhere(Filter(rides, Rated), RideDriverKey, gs[i].key)
      ensures var sorted := InStartOrder(RatedDriverRides(rides, gs[i].key));
        |sorted| > 0 && AllRated(sorted) && ts[i] == QualityTrendAt(sorted, |sorted| - 1)
    {
      TrendRowOfGroup(rides, gs[i], ts[i]);
    }
  }

  lemma TrendRowOfGroup(rides: seq<Ride>, g: Group<int, Ride>, t: QualityTrendRow)
    requires |g.rows| > 0 && g.rows == RatedDriverRides(rides, g.key)
    requires forall x :: x in g.rows ==> x in Filter(rides, Rated)
    requires t == PartitionTrend(rides, g)
    ensures t.totalRides == CountWhere(Filter(rides, Rated), RideDriverKey, g.key)
    ensures var sorted := InStartOrder(RatedDriverRides(rides, g.key));
      |sorted| > 0 && AllRated(sorted) && t == QualityTrendAt(sorted, |sorted| - 1)
  {
  }

  /** The rn = 1 row of one driver's partition of rated rides: the row of its last ride in
      start order. */
  function PartitionTrend(rides: seq<Ride>, g: Group<int, Ride>): (t: QualityTrendRow)
    requires |g.rows| > 0 && forall x :: x in g.rows ==> x in Filter(rides, Rated)
    ensures AllRated(InStartOrder(g.rows)) && t == QualityTrendAt(InStartOrder(g.rows), |g.rows| - 1)
    ensures t.totalRides == |g.rows| && t.flag == QualityTrendFlagOf(Some(t.recentTrend))
  {
    RatedPartition(rides, g);
    var sorted := InStartOrder(g.rows);
    QualityTrendAt(sorted, |sorted| - 1)
  }

  function TrendOf(t: QualityTrendRow): real { t.recentTrend }

  const TrendAlertLimit := 20

  /** ORDER BY recent_trend ASC LIMIT 20: the steepest declines first. */
  function TrendAlerts(ts: seq<QualityTrendRow>): (rows: seq<QualityTrendRow>)
    ensures |rows| == Min(TrendAlertLimit, |ts|)
    ensures forall i :: 0 <= i < |rows| ==> rows[i] == SortBy(ts, TrendOf, Asc)[i]
    ensures forall r :: r in rows ==> r in ts
    ensures forall i, j :: 0 <= i < j < |rows| ==> rows[i].recentTrend <= rows[j].recentTrend
  {
    var sorted := SortBy(ts, TrendOf, Asc);
    SortedMembers(ts, TrendOf, Asc);
    assert forall i, j :: 0 <= i < j < |sorted| ==> !Ahead(Asc, TrendOf(sorted[j]), TrendOf(sorted[i]));
    Limit(sorted, TrendAlertLimit)
  }

  function QualityTrendAlerts(rides: seq<Ride>): seq<QualityTrendRow> {
    TrendAlerts(QualityTrends(rides))
  }

  /** No driver left out of the alerts has a steeper decline than one listed. */
  lemma TrendAlertsKeepWorst(ts: seq<QualityTrendRow>, t: QualityTrendRow)
    requires t in ts
    ensures t in TrendAlerts(ts) || forall r :: r in TrendAlerts(ts) ==> r.recentTrend <= t.recentTrend
  {
    var sorted := SortBy(ts, TrendOf, Asc);
    var rows := TrendAlerts(ts);
    LimitKeepsBest(ts, TrendOf, Asc, |rows|, t);
    assert rows == sorted[..|rows|];
    if t !in rows {
      forall r | r in rows ensures r.recentTrend <= t.recentTrend {
        var i :| 0 <= i < |rows| && rows[i] == r;
        assert !Ahead(Asc, TrendOf(t), TrendOf(sorted[i]));
      }
    }
  }

  // ===========================================================================
  // Driver milestones: NTH_VALUE(fare, k) over the whole partition for k = 1, 10, 50, 100

  datatype MilestoneRow = MilestoneRow(
    driverName: string,
    totalRidesToDate: nat,
    stage: LifecycleStage,
    ride1Fare: Option<real>,
    ride10Fare: Option<real>,
    ride50Fare: Option<real>,
    ride100Fare: Option<real>,
    onboarding: Onboarding)

  /** ROUND(NTH_VALUE(fare, k), 2): the rounded fare of the driver's k-th ride, NULL when the
      driver has fewer than k rides. */
  function MilestoneFare(sorted: seq<Ride>, i: nat, k: nat): (r: Option<real>)
    requires i < |sorted| && k >= 1
    ensures r == if k <= |sorted| then Some(Round2(sorted[k - 1].fare)) else None
  {
    match NthValue(Column(sorted, RideFare), Keys(sorted, StartKey), WholePartition, i, k)
    case None => None
    case Some(f) => Some(Round2(f))
  }

  /** A milestone fare is present exactly when the driver has reached that milestone. */
  predicate MilestonesReached(m: MilestoneRow) {
    (m.ride1Fare.Some? <==> m.totalRidesToDate >= 1) &&
    (m.ride10Fare.Some? <==> m.totalRidesToDate >= 10) &&
    (m.ride50Fare.Some? <==> m.totalRidesToDate >= 50) &&
    (m.ride100Fare.Some? <==> m.totalRidesToDate >= 100)
  }

  function MilestoneAt(sorted: seq<Ride>, i: nat): (r: MilestoneRow)
    requires i < |sorted|
    ensures r.driverName == sorted[i].driverName && r.totalRidesToDate == |sorted|
    ensures r.stage == LifecycleStageOf(|sorted|)
    ensures r.ride1Fare == Some(Round2(sorted[0].fare))
    ensures r.ride10Fare == if |sorted| >= 10 then Some(Round2(sorted[9].fare)) else None
    ensures r.ride50Fare == if |sorted| >= 50 then Some(Round2(sorted[49].fare)) else None
    ensures r.ride100Fare == if |sorted| >= 100 then Some(Round2(sorted[99].fare)) else None
    ensures r.onboarding == OnboardingOf(|sorted|, r.ride1Fare, r.ride10Fare)
    ensures MilestonesReached(r)
  {
    var r1 := MilestoneFare(sorted, i, 1);
    var r10 := MilestoneFare(sorted, i, 10);
    MilestoneRow(sorted[i].driverName, |sorted|, LifecycleStageOf(|sorted|), r1, r10,
      MilestoneFare(sorted, i, 50), MilestoneFare(sorted, i, 100), OnboardingOf(|sorted|, r1, r10))
  }

  /** The CTE driver_milestones at rn = 1: one row per driver, counting all their rides; each
      row is the row of the last of that driver's rides in start order. */
  function DriverMilestones(rides: seq<Ride>): (ms: seq<MilestoneRow>)
    ensures |ms| == |GroupBy(rides, RideDriverKey)|
    ensures forall i :: 0 <= i < |ms| ==>
      ms[i].totalRidesToDate == CountWhere(rides, RideDriverKey, GroupBy(rides, RideDriverKey)[i].key)
    ensures forall i :: 0 <= i < |ms| ==>
      var sorted := InStartOrder(DriverRides(rides, GroupBy(rides, RideDriverKey)[i].key));
      |sorted| > 0 && ms[i] == MilestoneAt(sorted, |sorted| - 1)
    ensures forall m :: m in ms ==> MilestonesReached(m) && m.totalRidesToDate > 0
    ensures forall m :: m in ms ==> m.stage == LifecycleStageOf(m.totalRidesToDate)
    ensures forall m :: m in ms ==> m.onboarding == OnboardingOf(m.totalRidesToDate, m.ride1Fare, m.ride10Fare)
  {
    var gs := GroupBy(rides, RideDriverKey);
    var ms := MilestoneRows(gs);
    MilestoneRowsDescribe(rides, gs, ms);
    ms
  }

  /** One rn = 1 row per driver's partition. */
  function MilestoneRows(gs: seq<Group<int, Ride>>): (ms: seq<MilestoneRow>)
    requires forall i :: 0 <= i < |gs| ==> |gs[i].rows| > 0
    ensures |ms| == |gs|
    ensures forall i :: 0 <= i < |ms| ==> ms[i] == PartitionMilestone(gs[i].rows)
    ensures forall m :: m in ms ==> MilestonesReached(m) && m.totalRidesToDate > 0
    ensures forall m :: m in ms ==> m.stage == LifecycleStageOf(m.totalRidesToDate)
    ensures forall m :: m in ms ==> m.onboarding == OnboardingOf(m.totalRidesToDate, m.ride1Fare, m.ride10Fare)
  {
    seq(|gs|, i requires 0 <= i < |gs| => PartitionMilestone(gs[i].rows))
  }

  lemma MilestoneRowsDescribe(rides: seq<Ride>, gs: seq<Group<int, Ride>>, ms: seq<MilestoneRow>)
    requires gs == GroupBy(rides, RideDriverKey) && ms == MilestoneRows(gs)
    ensures forall i :: 0 <= i < |ms| ==> ms[i].totalRidesToDate == CountWhere(rides, RideDriverKey, gs[i].key)
    ensures forall i :: 0 <= i < |ms| ==>
      var sorted := InStartOrder(DriverRides(rides, gs[i].key));
      |sorted| > 0 && ms[i] == MilestoneAt(sorted, |sorted| - 1)
  {
    forall i | 0 <= i < |ms|
      ensures ms[i].totalRidesToDate == CountWhere(rides, RideDriverKey, gs[i].key)
      ensures var sorted := InStartOrder(DriverRides(rides, gs[i].key));
        |sorted| > 0 && ms[i] == MilestoneAt(sorted, |sorted| - 1)
    {
      MilestoneRowOfGroup(rides, gs[i], ms[i]);
    }
  }

  lemma MilestoneRowOfGroup(rides: seq<Ride>, g: Group<int, Ride>, m: MilestoneRow)
    requires |g.rows| > 0 && g.rows == DriverRides(rides, g.key)
    requires m == PartitionMilestone(g.rows)
    ensures m.totalRidesToDate == CountWhere(rides, RideDriverKey, g.key)
    ensures var sorted := InStartOrder(DriverRides(rides, g.key));
      |sorted| > 0 && m == MilestoneAt(sorted, |sorted| - 1)
  {
  }

  /** The rn = 1 row of one driver's partition: the row of its last ride in start order. */
  function PartitionMilestone(part: seq<Ride>): (m: MilestoneRow)
    requires |part| > 0
    ensures m == MilestoneAt(InStartOrder(part), |part| - 1)
    ensures m.totalRidesToDate == |part| && MilestonesReached(m)
    ensures m.stage == LifecycleStageOf(m.totalRidesToDate)
    ensures m.onboarding == OnboardingOf(m.totalRidesToDate, m.ride1Fare, m.ride10Fare)
  {
    var sorted := InStartOrder(part);
    MilestoneAt(sorted, |sorted| - 1)
  }

  const MinMilestoneRides := 10
  const MilestoneLimit := 30

  predicate Onboarded(m: MilestoneRow) { m.totalRidesToDate >= MinMilestoneRides }

  function TotalRidesOf(m: MilestoneRow): real { m.totalRidesToDate as real }

  /** WHERE total_rides_to_date >= 10 ORDER BY total_rides_to_date DESC LIMIT 30. */
  function Milestones(ms: seq<MilestoneRow>): (rows: seq<MilestoneRow>)
    ensures |rows| == Min(MilestoneLimit, |Filter(ms, Onboarded)|)
    ensures forall i :: 0 <= i < |rows| ==> rows[i] == SortBy(Filter(ms, Onboarded), TotalRidesOf, Desc)[i]
    ensures forall r :: r in rows <==> r in SortBy(Filter(ms, Onboarded), TotalRidesOf, Desc)[..|rows|]
    ensures forall r :: r in rows ==> r in ms && r.totalRidesToDate >= MinMilestoneRides
    ensures forall i, j :: 0 <= i < j < |rows| ==> rows[i].totalRidesToDate >= rows[j].totalRidesToDate
  {
    var kept := Filter(ms, Onboarded);
    var rows := Limit(SortBy(kept, TotalRidesOf, Desc), MilestoneLimit);
    TopRows(kept, TotalRidesOf, Desc, MilestoneLimit);
    assert forall i, j :: 0 <= i < j < |rows| ==> !Ahead(Desc, TotalRidesOf(rows[j]), TotalRidesOf(rows[i]));
    assert forall r :: r in rows ==> r in kept;
    rows
  }

  /** The LIMIT keeps the busiest drivers: a driver with ten rides who is left out has no more
      rides than any driver who is listed. */
  lemma MilestonesKeepBusiest(ms: seq<MilestoneRow>, m: MilestoneRow)
    requires m in ms && Onboarded(m)
    ensures var rows := Milestones(ms);
      m in rows || forall r :: r in rows ==> m.totalRidesToDate <= r.totalRidesToDate
  {
    var kept := Filter(ms, Onboarded);
    var sorted := SortBy(kept, TotalRidesOf, Desc);
    var rows := Milestones(ms);
    LimitKeepsBest(kept, TotalRidesOf, Desc, |rows|, m);
    assert rows == sorted[..|rows|];
    if m !in rows {
      forall r | r in rows ensures m.totalRidesToDate <= r.totalRidesToDate {
        var i :| 0 <= i < |rows| && rows[i] == r;
        assert !Ahead(Desc, TotalRidesOf(m), TotalRidesOf(sorted[i]));
      }
    }
  }

  /** ORDER BY ... LIMIT n: the first n rows in sorted order, each a row of the input, still
      in order. */
  lemma TopRows<T>(s: seq<T>, key: T -> real, d: Direction, n: nat)
    ensures var rows := Limit(SortBy(s, key, d), n);
      |rows| == Min(n, |s|) &&
      (forall i :: 0 <= i < |rows| ==> rows[i] == SortBy(s, key, d)[i] && rows[i] in s) &&
      SortedBy(rows, key, d)
  {
    var sorted := SortBy(s, key, d);
    var rows := Limit(sorted, n);
    SortedMembers(s, key, d);
    assert rows == sorted[..|rows|];
  }

  function DriverMilestoneReport(rides: seq<Ride>): seq<MilestoneRow> {
    Milestones(DriverMilestones(rides))
  }

  /** Every listed driver has reached ride 10, so their first and tenth fares are present and
      their stage is never "New"; a driver is in strong onboarding only with 50 rides and a
      tenth fare above the first. */
  lemma MilestoneReportRows(rides: seq<Ride>)
    ensures forall r :: r in DriverMilestoneReport(rides) ==>
      MilestonesReached(r) && r.ride1Fare.Some? && r.ride10Fare.Some? && !r.stage.New? &&
      (r.onboarding.StrongOnboarding? <==> r.totalRidesToDate >= 50 && r.ride10Fare.value > r.ride1Fare.value)
  {
    var ms := DriverMilestones(rides);
    assert forall r :: r in Milestones(ms) ==> r in ms && r.totalRidesToDate >= MinMilestoneRides;
  }

  // ===========================================================================
  // The milestone funnel: how many listed drivers reached each milestone

  function ReachedRide1(m: MilestoneRow): bool { m.ride1Fare.Some? }
  function ReachedRide10(m: MilestoneRow): bool { m.ride10Fare.Some? }
  function ReachedRide50(m: MilestoneRow): bool { m.ride50Fare.Some? }
  function ReachedRide100(m: MilestoneRow): bool { m.ride100Fare.Some? }

  /** The count of non-NULL fares at rides 1, 10, 50 and 100. */
  function MilestoneFunnel(rows: seq<MilestoneRow>): (counts: seq<nat>)
    ensures |counts| == 4
    ensures counts[0] == CountWhere(rows, ReachedRide1, true) && counts[1] == CountWhere(rows, ReachedRide10, true)
    ensures counts[2] == CountWhere(rows, ReachedRide50, true) && counts[3] == CountWhere(rows, ReachedRide100, true)
    ensures forall i :: 0 <= i < 4 ==> counts[i] <= |rows|
  {
    [CountWhere(rows, ReachedRide1, true), CountWhere(rows, ReachedRide10, true),
     CountWhere(rows, ReachedRide50, true), CountWhere(rows, ReachedRide100, true)]
  }

  /** The funnel only narrows: a driver who reached a milestone reached every earlier one. */
  lemma FunnelNarrows(rows: seq<MilestoneRow>)
    requires forall i :: 0 <= i < |rows| ==> MilestonesReached(rows[i])
    ensures var c := MilestoneFunnel(rows); c[0] >= c[1] >= c[2] >= c[3]
  {
    CountWhereMonotone(rows, ReachedRide10, ReachedRide1);
    CountWhereMonotone(rows, ReachedRide50, ReachedRide10);
    CountWhereMonotone(rows, ReachedRide100, ReachedRide50);
  }

  /** On the report, every listed driver reached rides 1 and 10, so the funnel's first two bars
      are the whole list. */
  lemma FunnelOfReport(rides: seq<Ride>)
    ensures var rows := DriverMilestoneReport(rides); var c := MilestoneFunnel(rows);
      c[0] == c[1] == |rows| && c[1] >= c[2] >= c[3]
  {
    var rows := DriverMilestoneReport(rides);
    MilestoneReportRows(rides);
    assert forall i :: 0 <= i < |rows| ==> rows[i] in rows;
    CountWhereAll(rows, ReachedRide1);
    CountWhereAll(rows, ReachedRide10);
    FunnelNarrows(rows);
  }
}
