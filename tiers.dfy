/** The CASE expressions that turn a window function's value into a label. Each CASE is a
    datatype of outcomes with the exact label text, and a classifier whose contract states the
    range of values that leads to each outcome (the WHEN branches are tried in order, so each
    outcome's range excludes those of the branches before it). */
module Tiers {
  import opened Sql

  // ---------------------------------------------------------------------------
  // Revenue tiers, by RANK of total revenue

  datatype RevenueTier = TopTier | MidTier | GrowthTier {
    function Label(): string {
      match this
      case TopTier => "Top Tier (Rank <=10)"
      case MidTier => "Mid Tier (Rank 11-30)"
      case GrowthTier => "Growth Tier (Rank >30)"
    }

    /** Position of the tier from best (0) to worst. */
    function Level(): nat {
      match this
      case TopTier => 0
      case MidTier => 1
      case GrowthTier => 2
    }
  }

  function RevenueTierOf(rank: nat): (t: RevenueTier)
    ensures t.TopTier? <==> rank <= 10
    ensures t.MidTier? <==> 10 < rank <= 30
    ensures t.GrowthTier? <==> 30 < rank
  {
    if rank <= 10 then TopTier
    else if rank <= 30 then MidTier
    else GrowthTier
  }

  /** A worse rank never gives a better tier. */
  lemma RevenueTierMonotone(a: nat, b: nat)
    requires a <= b
    ensures RevenueTierOf(a).Level() <= RevenueTierOf(b).Level()
  {
  }

  // ---------------------------------------------------------------------------
  // Quality tiers, by DENSE_RANK of average rating

  datatype QualityTier = Platinum | Gold | Silver | Development {
    function Label(): string {
      match this
      case Platinum => "Platinum (4.8+)"
      case Gold => "Gold (4.5-4.7)"
      case Silver => "Silver (4.0-4.4)"
      case Development => "Development (Below 4.0)"
    }
  }

  /** The tier is chosen by the dense rank alone; the rating ranges in the labels are not
      checked against the driver's rating. */
  function QualityTierOf(tier: nat): (t: QualityTier)
    ensures t.Platinum? <==> tier == 1
    ensures t.Gold? <==> tier == 2
    ensures t.Silver? <==> tier == 3
    ensures t.Development? <==> tier != 1 && tier != 2 && tier != 3
  {
    if tier == 1 then Platinum
    else if tier == 2 then Gold
    else if tier == 3 then Silver
    else Development
  }

  // ---------------------------------------------------------------------------
  // Commission tiers, by PERCENT_RANK of total revenue

  datatype CommissionTier = Top20 | Top50 | GrowthPool {
    function Label(): string {
      match this
      case Top20 => "Top 20% - +15% Commission"
      case Top50 => "Top 50% - +10% Commission"
      case GrowthPool => "Growth Pool - +5% Commission"
    }

    function Level(): nat {
      match this
      case Top20 => 0
      case Top50 => 1
      case GrowthPool => 2
    }
  }

  function CommissionTierOf(percentile: real): (t: CommissionTier)
    ensures t.Top20? <==> percentile <= 0.20
    ensures t.Top50? <==> 0.20 < percentile <= 0.50
    ensures t.GrowthPool? <==> 0.50 < percentile
  {
    if percentile <= 0.20 then Top20
    else if percentile <= 0.50 then Top50
    else GrowthPool
  }

  lemma CommissionTierMonotone(a: real, b: real)
    requires a <= b
    ensures CommissionTierOf(a).Level() <= CommissionTierOf(b).Level()
  {
  }

  /** The percentile is rounded to three places before the CASE, so a driver whose exact
      percent rank is just above 0.20 still earns the top commission: the top tier is taken
      exactly when the exact value is below 0.2005, the middle tier below 0.5005. */
  lemma CommissionTierOfRounded(p: real)
    requires p >= 0.0
    ensures CommissionTierOf(Round3(p)).Top20? <==> p < 0.2005
    ensures CommissionTierOf(Round3(p)).GrowthPool? <==> p >= 0.5005
  {
    var h := HalfAwayFromZero(p * 1000.0);
    assert Round3(p) == h as real / 1000.0;
    assert Round3(p) <= 0.20 <==> h <= 200;
    assert Round3(p) <= 0.50 <==> h <= 500;
  }

  // ---------------------------------------------------------------------------
  // Efficiency quartiles, by CUME_DIST of average wait time

  datatype EfficiencyQuartile = Q1 | Q2 | Q3 | Q4 {
    function Label(): string {
      match this
      case Q1 => "Q1 (Best) - Fleet Stars"
      case Q2 => "Q2 (Good) - Reliable"
      case Q3 => "Q3 (Fair) - Training Eligible"
      case Q4 => "Q4 (Development) - Mentoring Program"
    }

    function Level(): nat {
      match this
      case Q1 => 0
      case Q2 => 1
      case Q3 => 2
      case Q4 => 3
    }
  }

  function EfficiencyQuartileOf(cumeDist: real): (q: EfficiencyQuartile)
    ensures q.Q1? <==> cumeDist <= 0.25
    ensures q.Q2? <==> 0.25 < cumeDist <= 0.50
    ensures q.Q3? <==> 0.50 < cumeDist <= 0.75
    ensures q.Q4? <==> 0.75 < cumeDist
  {
    if cumeDist <= 0.25 then Q1
    else if cumeDist <= 0.50 then Q2
    else if cumeDist <= 0.75 then Q3
    else Q4
  }

  lemma EfficiencyQuartileMonotone(a: real, b: real)
    requires a <= b
    ensures EfficiencyQuartileOf(a).Level() <= EfficiencyQuartileOf(b).Level()
  {
  }

  // ---------------------------------------------------------------------------
  // Customer value segments, by NTILE(4) of total fare spent

  datatype CustomerSegment = Vip | Premium | Standard | Basic {
    function Label(): string {
      match this
      case Vip => "VIP (Top 25%)"
      case Premium => "Premium (25-50%)"
      case Standard => "Standard (50-75%)"
      case Basic => "Basic (Bottom 25%)"
    }
  }

  function CustomerSegmentOf(quartile: nat): (s: CustomerSegment)
    ensures s.Vip? <==> quartile == 1
    ensures s.Premium? <==> quartile == 2
    ensures s.Standard? <==> quartile == 3
    ensures s.Basic? <==> quartile != 1 && quartile != 2 && quartile != 3
  {
    if quartile == 1 then Vip
    else if quartile == 2 then Premium
    else if quartile == 3 then Standard
    else Basic
  }

  // ---------------------------------------------------------------------------
  // Retention risk, by idle time until the next ride

  datatype RetentionRisk = ChurnRisk | IdleWarning | Normal | LastRide {
    function Label(): string {
      match this
      case ChurnRisk => "CHURN RISK: >4hr idle"
      case IdleWarning => "WARNING: 2-4hr idle"
      case Normal => "Normal: <2hr idle"
      case LastRide => "Last ride (no next ride data)"
    }
  }

  const SecondsPerHour: int := 3600

  /** `idleSeconds` is the time from the end of a ride to the start of the next one, NULL when
      there is no next ride; it is divided by 3600 and compared with 4 and 2 hours. A next ride
      that starts before the current one ends gives a negative idle time, which counts as normal. */
  function RetentionRiskOf(idleSeconds: Option<int>): (r: RetentionRisk)
    ensures r.LastRide? <==> idleSeconds.None?
    ensures r.ChurnRisk? <==> idleSeconds.Some? && idleSeconds.value > 4 * SecondsPerHour
    ensures r.IdleWarning? <==> idleSeconds.Some? && 2 * SecondsPerHour < idleSeconds.value <= 4 * SecondsPerHour
    ensures r.Normal? <==> idleSeconds.Some? && idleSeconds.value <= 2 * SecondsPerHour
  {
    match idleSeconds
    case None => LastRide
    case Some(s) =>
      var hours := s as real / SecondsPerHour as real;
      if hours > 4.0 then ChurnRisk
      else if hours > 2.0 then IdleWarning
      else Normal
  }

  // ---------------------------------------------------------------------------
  // Performance trend, by fare improvement over the first ride

  datatype ProgressionTrend = StrongGrowth | PositiveTrend | Stable | Declining {
    function Label(): string {
      match this
      case StrongGrowth => "Strong Growth (>$20 gain)"
      case PositiveTrend => "Positive Trend ($5-$20 gain)"
      case Stable => "Stable ($0-$5)"
      case Declining => "Declining (<$0)"
    }

    function Level(): nat {
      match this
      case StrongGrowth => 0
      case PositiveTrend => 1
      case Stable => 2
      case Declining => 3
    }
  }

  function ProgressionTrendOf(gain: real): (t: ProgressionTrend)
    ensures t.StrongGrowth? <==> gain >= 20.0
    ensures t.PositiveTrend? <==> 5.0 <= gain < 20.0
    ensures t.Stable? <==> 0.0 <= gain < 5.0
    ensures t.Declining? <==> gain < 0.0
  {
    if gain >= 20.0 then StrongGrowth
    else if gain >= 5.0 then PositiveTrend
    else if gain >= 0.0 then Stable
    else Declining
  }

  /** A larger gain never gives a worse trend. */
  lemma ProgressionTrendMonotone(a: real, b: real)
    requires a <= b
    ensures ProgressionTrendOf(b).Level() <= ProgressionTrendOf(a).Level()
  {
  }

  // ---------------------------------------------------------------------------
  // Quality trend flag, by most recent rating minus lifetime average

  datatype QualityTrendFlag = QualityAlert | SlightDecline | Maintaining {
    function Label(): string {
      match this
      case QualityAlert => "ALERT: Quality declining >0.5 stars"
      case SlightDecline => "WARNING: Slight quality decline"
      case Maintaining => "POSITIVE: Maintaining or improving"
    }

    function Level(): nat {
      match this
      case Maintaining => 0
      case SlightDecline => 1
      case QualityAlert => 2
    }
  }

  /** The CASE has no ELSE: a NULL trend matches no branch and gives a NULL flag. */
  function QualityTrendFlagOf(trend: Option<real>): (f: Option<QualityTrendFlag>)
    ensures f.None? <==> trend.None?
    ensures f == Some(QualityAlert) <==> trend.Some? && trend.value < -0.5
    ensures f == Some(SlightDecline) <==> trend.Some? && -0.5 <= trend.value < 0.0
    ensures f == Some(Maintaining) <==> trend.Some? && trend.value >= 0.0
  {
    match trend
    case None => None
    case Some(t) =>
      if t < -0.5 then Some(QualityAlert)
      else if t < 0.0 then Some(SlightDecline)
      else if t >= 0.0 then Some(Maintaining)
      else None
  }

  /** A higher trend never gives a worse flag. */
  lemma QualityTrendFlagMonotone(a: real, b: real)
    requires a <= b
    ensures QualityTrendFlagOf(Some(b)).value.Level() <= QualityTrendFlagOf(Some(a)).value.Level()
  {
  }

  // ---------------------------------------------------------------------------
  // Lifecycle stage and onboarding quality, by ride count and milestone fares

  datatype LifecycleStage = Active | Engaged | Onboarded | New {
    function Label(): string {
      match this
      case Active => "Active (100+ rides)"
      case Engaged => "Engaged (50+ rides)"
      case Onboarded => "Onboarded (10+ rides)"
      case New => "New (<10 rides)"
    }

    function Level(): nat {
      match this
      case Active => 0
      case Engaged => 1
      case Onboarded => 2
      case New => 3
    }
  }

  function LifecycleStageOf(totalRides: nat): (s: LifecycleStage)
    ensures s.Active? <==> totalRides >= 100
    ensures s.Engaged? <==> 50 <= totalRides < 100
    ensures s.Onboarded? <==> 10 <= totalRides < 50
    ensures s.New? <==> totalRides < 10
  {
    if totalRides >= 100 then Active
    else if totalRides >= 50 then Engaged
    else if totalRides >= 10 then Onboarded
    else New
  }

  /** More rides never give an earlier lifecycle stage. */
  lemma LifecycleStageMonotone(a: nat, b: nat)
    requires a <= b
    ensures LifecycleStageOf(b).Level() <= LifecycleStageOf(a).Level()
  {
  }

  datatype Onboarding = StrongOnboarding | MonitorGrowth {
    function Label(): string {
      match this
      case StrongOnboarding => "Strong onboarding (fares increasing)"
      case MonitorGrowth => "Monitor growth pattern"
    }
  }

  /** Strong onboarding needs 50 rides and a tenth fare above the first; a comparison with a
      NULL fare is not true, so a missing fare means monitoring. */
  function OnboardingOf(totalRides: nat, ride1Fare: Option<real>, ride10Fare: Option<real>): (o: Onboarding)
    ensures o.StrongOnboarding? <==>
      totalRides >= 50 && ride1Fare.Some? && ride10Fare.Some? && ride10Fare.value > ride1Fare.value
  {
    if totalRides >= 50 && Greater(ride10Fare, ride1Fare) == Some(true) then StrongOnboarding
    else MonitorGrowth
  }
}
