/** The pre-trade risk gate: each check on exact reals, the rolled-up assessment, and what accepted orders preserve. */
module RiskGate {
  import opened Basics
  import Sums

  datatype Status = Passed | Warning | Failed

  datatype RiskLimits = RiskLimits(
    maxGrossExposurePct: real,
    maxNetExposurePct: real,
    maxSingleVenuePct: real,
    maxSingleAssetPct: real,
    maxLeverage: real,
    minLiquidityReservePct: real,
    maxDailyDrawdownPct: real,
    maxWeeklyDrawdownPct: real,
    maxPortfolioDrawdownPct: real,
    maxPriceAgeSec: real,
    maxPositionSizePct: real,
    maxOpportunityCount: int)

  datatype Portfolio = Portfolio(
    totalNav: real,
    grossExposure: real,
    netExposure: real,
    liquidityReserve: real,
    dailyDrawdownPct: real,
    weeklyDrawdownPct: real,
    portfolioDrawdownPct: real,
    venueExposures: map<string, real>,
    assetExposures: map<string, real>,
    sleeveNav: map<string, real>,
    openPositionCount: int)

  /** An order with the facts the gate reads at the moment of assessment. */
  datatype Order = Order(
    venueId: string,
    asset: string,
    sleeveId: string,
    positionSizeUsd: real,
    deltaUsd: real,
    requiredMarginUsd: real,
    priceAgeSec: real,
    anyBreakerOpen: bool)

  // ---- Checks ----

  /** Failed above the limit, a warning above `factor` times the limit. */
  function UpTo(actual: real, limit: real, factor: real): Status {
    if actual > limit then Failed else if actual > limit * factor then Warning else Passed
  }

  function Pct(part: real, whole: real): real
    requires whole != 0.0
  {
    part / whole * 100.0
  }

  function CheckGrossExposure(gross: real, size: real, nav: real, limits: RiskLimits): Status {
    if nav == 0.0 then Failed else UpTo(Pct(gross + size, nav), limits.maxGrossExposurePct, 0.90)
  }

  function CheckNetExposure(net: real, delta: real, nav: real, limits: RiskLimits): Status {
    if nav == 0.0 then Failed else UpTo(Pct(Abs(net + delta), nav), limits.maxNetExposurePct, 0.90)
  }

  function CheckConcentration(exposure: real, size: real, gross: real, limitPct: real): Status {
    if gross + size == 0.0 then Failed else UpTo(Pct(exposure + size, gross + size), limitPct, 0.90)
  }

  function CheckLeverage(gross: real, size: real, nav: real, limits: RiskLimits): Status {
    if nav == 0.0 then Failed else UpTo((gross + size) / nav, limits.maxLeverage, 0.90)
  }

  function CheckLiquidityReserve(reserve: real, margin: real, nav: real, limits: RiskLimits): Status {
    if nav == 0.0 then Failed
    else if Pct(reserve - margin, nav) < limits.minLiquidityReservePct then Failed
    else if Pct(reserve - margin, nav) < limits.minLiquidityReservePct * 1.20 then Warning
    else Passed
  }

  function CheckPositionSize(size: real, sleeveNav: real, limits: RiskLimits): Status {
    if sleeveNav == 0.0 then Failed else UpTo(Pct(size, sleeveNav), limits.maxPositionSizePct, 0.90)
  }

  function CheckOpenPositions(count: int, limits: RiskLimits): Status {
    if count >= limits.maxOpportunityCount then Failed
    else if count >= (limits.maxOpportunityCount as real * 0.9).Floor then Warning
    else Passed
  }

  function SleeveNav(p: Portfolio, o: Order): real {
    if o.sleeveId in p.sleeveNav then p.sleeveNav[o.sleeveId] else p.totalNav
  }

  /** The results in the order in which the source pushes them; an open breaker short-circuits all of them. */
  function Results(o: Order, p: Portfolio, limits: RiskLimits): seq<Status> {
    if o.anyBreakerOpen then [Failed]
    else
      [UpTo(o.priceAgeSec, limits.maxPriceAgeSec, 0.80),
       CheckGrossExposure(p.grossExposure, o.positionSizeUsd, p.totalNav, limits),
       CheckNetExposure(p.netExposure, o.deltaUsd, p.totalNav, limits),
       CheckConcentration(Exposure(p.venueExposures, o.venueId), o.positionSizeUsd, p.grossExposure, limits.maxSingleVenuePct),
       CheckConcentration(Exposure(p.assetExposures, o.asset), o.positionSizeUsd, p.grossExposure, limits.maxSingleAssetPct),
       CheckLeverage(p.grossExposure, o.positionSizeUsd, p.totalNav, limits),
       CheckLiquidityReserve(p.liquidityReserve, o.requiredMarginUsd, p.totalNav, limits),
       UpTo(p.dailyDrawdownPct, limits.maxDailyDrawdownPct, 0.90),
       UpTo(p.weeklyDrawdownPct, limits.maxWeeklyDrawdownPct, 0.90),
       UpTo(p.portfolioDrawdownPct, limits.maxPortfolioDrawdownPct, 0.90),
       CheckPositionSize(o.positionSizeUsd, SleeveNav(p, o), limits),
       CheckOpenPositions(p.openPositionCount, limits)]
  }

  /** The worst of the results. */
  method RollUpStatus(results: seq<Status>) returns (overall: Status)
    ensures overall == Failed <==> Failed in results
    ensures overall == Warning <==> Failed !in results && Warning in results
  {
    var hasWarning := false;
    for i := 0 to |results|
      invariant Failed !in results[..i]
      invariant hasWarning <==> Warning in results[..i]
    {
      if results[i] == Failed { return Failed; }
      if results[i] == Warning { hasWarning := true; }
    }
    assert results[..|results|] == results;
    return if hasWarning then Warning else Passed;
  }

  predicate Accepts(o: Order, p: Portfolio, limits: RiskLimits) {
    forall i :: 0 <= i < |Results(o, p, limits)| ==> Results(o, p, limits)[i] != Failed
  }

  method AssessOrderIntent(o: Order, p: Portfolio, limits: RiskLimits) returns (results: seq<Status>, overall: Status)
    ensures results == Results(o, p, limits)
    ensures overall == Failed <==> !Accepts(o, p, limits)
    ensures overall == Passed <==> forall i :: 0 <= i < |results| ==> results[i] == Passed
  {
    hide CheckGrossExposure, CheckNetExposure, CheckConcentration, CheckLeverage, CheckLiquidityReserve,
         CheckPositionSize, CheckOpenPositions, UpTo, SleeveNav, Exposure;
    if o.anyBreakerOpen {
      results, overall := [Failed], Failed;
      assert results[0] == Failed;
      return;
    }
    var staleness := UpTo(o.priceAgeSec, limits.maxPriceAgeSec, 0.80);
    var gross := CheckGrossExposure(p.grossExposure, o.positionSizeUsd, p.totalNav, limits);
    var net := CheckNetExposure(p.netExposure, o.deltaUsd, p.totalNav, limits);
    var venueExposure := Exposure(p.venueExposures, o.venueId);
    var venue := CheckConcentration(venueExposure, o.positionSizeUsd, p.grossExposure, limits.maxSingleVenuePct);
    var assetExposure := Exposure(p.assetExposures, o.asset);
    var asset := CheckConcentration(assetExposure, o.positionSizeUsd, p.grossExposure, limits.maxSingleAssetPct);
    var leverage := CheckLeverage(p.grossExposure, o.positionSizeUsd, p.totalNav, limits);
    var reserve := CheckLiquidityReserve(p.liquidityReserve, o.requiredMarginUsd, p.totalNav, limits);
    var daily := UpTo(p.dailyDrawdownPct, limits.maxDailyDrawdownPct, 0.90);
    var weekly := UpTo(p.weeklyDrawdownPct, limits.maxWeeklyDrawdownPct, 0.90);
    var portfolio := UpTo(p.portfolioDrawdownPct, limits.maxPortfolioDrawdownPct, 0.90);
    var size := CheckPositionSize(o.positionSizeUsd, SleeveNav(p, o), limits);
    var count := CheckOpenPositions(p.openPositionCount, limits);
    results := [staleness, gross, net, venue, asset, leverage, reserve, daily, weekly, portfolio, size, count];
    overall := RollUpStatus(results);
    assert Failed in results <==> exists i :: 0 <= i < |results| && results[i] == Failed;
    assert Warning in results <==> exists i :: 0 <= i < |results| && results[i] == Warning;
  }

  // ---- Runs through the gate ----

  /** The portfolio with the exposures the checks projected. */
  function Apply(p: Portfolio, o: Order): Portfolio {
    p.(grossExposure := p.grossExposure + o.positionSizeUsd,
       netExposure := p.netExposure + o.deltaUsd,
       liquidityReserve := p.liquidityReserve - o.requiredMarginUsd,
       venueExposures := p.venueExposures[o.venueId := Exposure(p.venueExposures, o.venueId) + o.positionSizeUsd],
       assetExposures := p.assetExposures[o.asset := Exposure(p.assetExposures, o.asset) + o.positionSizeUsd],
       openPositionCount := p.openPositionCount + 1)
  }

  /** Orders arrive one after the other; those assessed 'failed' are not applied. */
  function Run(p: Portfolio, orders: seq<Order>, limits: RiskLimits): Portfolio {
    if orders == [] then p
    else
      var before := Run(p, orders[..|orders| - 1], limits);
      var o := orders[|orders| - 1];
      if Accepts(o, before, limits) then Apply(before, o) else before
  }

  /** No venue, or no asset, holds more than `limit` percent of gross exposure; without exposure, none holds any. */
  ghost predicate SharesWithin(m: map<string, real>, gross: real, limit: real) {
    limit >= 0.0 && forall k: string :: Exposure(m, k) * 100.0 <= limit * gross
  }

  ghost predicate WithinLimits(p: Portfolio, limits: RiskLimits) {
    && p.totalNav > 0.0 && p.grossExposure >= 0.0
    && Pct(p.grossExposure, p.totalNav) <= limits.maxGrossExposurePct
    && Pct(Abs(p.netExposure), p.totalNav) <= limits.maxNetExposurePct
    && p.grossExposure / p.totalNav <= limits.maxLeverage
    && Pct(p.liquidityReserve, p.totalNav) >= limits.minLiquidityReservePct
    && SharesWithin(p.venueExposures, p.grossExposure, limits.maxSingleVenuePct)
    && SharesWithin(p.assetExposures, p.grossExposure, limits.maxSingleAssetPct)
    && p.openPositionCount <= limits.maxOpportunityCount
  }

  ghost predicate NonNegativeSizes(orders: seq<Order>) {
    forall i :: 0 <= i < |orders| ==> orders[i].positionSizeUsd >= 0.0
  }

  lemma PctIff(part: real, whole: real, limit: real)
    requires whole > 0.0
    ensures Pct(part, whole) <= limit <==> part * 100.0 <= limit * whole
  {
    var q := part / whole;
    assert q * whole == part;
    assert (limit - q * 100.0) * whole == limit * whole - part * 100.0;
    assert q * 100.0 <= limit ==> (limit - q * 100.0) * whole >= 0.0;
    assert q * 100.0 > limit ==> (limit - q * 100.0) * whole < 0.0;
  }

  /** The share of an exposure nobody adds to cannot grow when gross exposure does. */
  lemma UntouchedShareShrinks(exposure: real, gross: real, size: real, limit: real)
    requires gross > 0.0 && size >= 0.0 && limit >= 0.0 && Pct(exposure, gross) <= limit
    ensures Pct(exposure, gross + size) <= limit
  {
    PctIff(exposure, gross, limit);
    PctIff(exposure, gross + size, limit);
    assert limit * gross <= limit * (gross + size);
  }

  lemma {:induction false} LongerThanAll(keys: set<string>) returns (n: nat)
    ensures forall k :: k in keys ==> |k| < n
  {
    if keys == {} {
      n := 0;
    } else {
      var k :| k in keys;
      var rest := LongerThanAll(keys - {k});
      n := if |k| < rest then rest else |k| + 1;
    }
  }

  /**
   With gross exposure, `SharesWithin` says that every percentage is within the limit: some key has no exposure, so
   such a limit is not negative.
   */
  lemma SharesArePercentages(m: map<string, real>, gross: real, limit: real)
    requires gross > 0.0
    ensures SharesWithin(m, gross, limit) <==> forall k: string :: Pct(Exposure(m, k), gross) <= limit
  {
    var n := LongerThanAll(m.Keys);
    var unused: string := seq(n, _ => 'x');
    assert unused !in m;
    assert Pct(Exposure(m, unused), gross) == 0.0;
    hide Pct, Exposure;
    forall k: string
      ensures Pct(Exposure(m, k), gross) <= limit <==> Exposure(m, k) * 100.0 <= limit * gross
    {
      PctIff(Exposure(m, k), gross, limit);
    }
  }

  lemma LimitTimesGrows(limit: real, gross: real, size: real)
    requires limit >= 0.0 && size >= 0.0
    ensures limit * gross <= limit * (gross + size)
  {
  }

  lemma SharesAfter(m: map<string, real>, key: string, gross: real, size: real, limit: real)
    requires gross >= 0.0 && size >= 0.0
    requires SharesWithin(m, gross, limit)
    requires CheckConcentration(Exposure(m, key), size, gross, limit) != Failed
    ensures SharesWithin(m[key := Exposure(m, key) + size], gross + size, limit)
  {
    hide Pct;
    var after := m[key := Exposure(m, key) + size];
    LimitTimesGrows(limit, gross, size);
    PctIff(Exposure(m, key) + size, gross + size, limit);
    forall k: string
      ensures Exposure(after, k) * 100.0 <= limit * (gross + size)
    {
      if k == key {
        assert Exposure(after, k) == Exposure(m, key) + size;
      } else {
        assert Exposure(after, k) == Exposure(m, k);
      }
    }
  }

  lemma AcceptedMeans(o: Order, p: Portfolio, limits: RiskLimits)
    requires Accepts(o, p, limits)
    ensures CheckGrossExposure(p.grossExposure, o.positionSizeUsd, p.totalNav, limits) != Failed
    ensures CheckNetExposure(p.netExposure, o.deltaUsd, p.totalNav, limits) != Failed
    ensures CheckConcentration(Exposure(p.venueExposures, o.venueId), o.positionSizeUsd, p.grossExposure, limits.maxSingleVenuePct) != Failed
    ensures CheckConcentration(Exposure(p.assetExposures, o.asset), o.positionSizeUsd, p.grossExposure, limits.maxSingleAssetPct) != Failed
    ensures CheckLeverage(p.grossExposure, o.positionSizeUsd, p.totalNav, limits) != Failed
    ensures CheckLiquidityReserve(p.liquidityReserve, o.requiredMarginUsd, p.totalNav, limits) != Failed
    ensures CheckPositionSize(o.positionSizeUsd, SleeveNav(p, o), limits) != Failed
    ensures CheckOpenPositions(p.openPositionCount, limits) != Failed
  {
    hide CheckGrossExposure, CheckNetExposure, CheckConcentration, CheckLeverage, CheckLiquidityReserve,
         CheckPositionSize, CheckOpenPositions, UpTo, SleeveNav, Exposure;
    var r := Results(o, p, limits);
    assert r[0] != Failed;
    assert !o.anyBreakerOpen;
    assert r[1] != Failed && r[2] != Failed && r[3] != Failed && r[4] != Failed && r[5] != Failed && r[6] != Failed;
    assert r[10] != Failed && r[11] != Failed;
  }

  lemma ApplyKeepsLimits(p: Portfolio, o: Order, limits: RiskLimits)
    requires WithinLimits(p, limits) && Accepts(o, p, limits) && o.positionSizeUsd >= 0.0
    ensures WithinLimits(Apply(p, o), limits)
    ensures p.grossExposure + o.positionSizeUsd > 0.0
  {
    hide Pct, Accepts;
    AcceptedMeans(o, p, limits);
    SharesAfter(p.venueExposures, o.venueId, p.grossExposure, o.positionSizeUsd, limits.maxSingleVenuePct);
    SharesAfter(p.assetExposures, o.asset, p.grossExposure, o.positionSizeUsd, limits.maxSingleAssetPct);
  }

  /** What the gate demands of an order besides the limits on exposures. */
  predicate Admissible(o: Order, p: Portfolio, limits: RiskLimits) {
    && !o.anyBreakerOpen
    && o.priceAgeSec <= limits.maxPriceAgeSec
    && p.dailyDrawdownPct <= limits.maxDailyDrawdownPct
    && p.weeklyDrawdownPct <= limits.maxWeeklyDrawdownPct
    && p.portfolioDrawdownPct <= limits.maxPortfolioDrawdownPct
    && p.grossExposure + o.positionSizeUsd != 0.0
    && var sleeveNav := if o.sleeveId in p.sleeveNav then p.sleeveNav[o.sleeveId] else p.totalNav;
       sleeveNav != 0.0 && Pct(o.positionSizeUsd, sleeveNav) <= limits.maxPositionSizePct
  }

  lemma SleeveNavIs(p: Portfolio, o: Order)
    ensures SleeveNav(p, o) == if o.sleeveId in p.sleeveNav then p.sleeveNav[o.sleeveId] else p.totalNav
  {
  }

  /** In a portfolio within its limits, the gate refuses an admissible order only if it would break a limit. */
  lemma AcceptsIffLimitsHold(p: Portfolio, o: Order, limits: RiskLimits)
    requires WithinLimits(p, limits) && o.positionSizeUsd >= 0.0
    ensures Accepts(o, p, limits) <==> Admissible(o, p, limits) && WithinLimits(Apply(p, o), limits)
  {
    if Accepts(o, p, limits) {
      ApplyKeepsLimits(p, o, limits);
      SleeveNavIs(p, o);
      hide Pct, WithinLimits, Apply, SleeveNav, Exposure;
      var r := Results(o, p, limits);
      assert r[0] != Failed && r[7] != Failed && r[8] != Failed && r[9] != Failed && r[10] != Failed;
    } else if Admissible(o, p, limits) && WithinLimits(Apply(p, o), limits) {
      LimitsAccept(p, o, limits);
      assert false;
    }
  }

  lemma LimitsAccept(p: Portfolio, o: Order, limits: RiskLimits)
    requires p.totalNav > 0.0 && p.grossExposure >= 0.0 && o.positionSizeUsd >= 0.0
    requires Admissible(o, p, limits) && WithinLimits(Apply(p, o), limits)
    ensures Accepts(o, p, limits)
  {
    ConcentrationAccepts(p.venueExposures, o.venueId, p.grossExposure, o.positionSizeUsd, limits.maxSingleVenuePct);
    ConcentrationAccepts(p.assetExposures, o.asset, p.grossExposure, o.positionSizeUsd, limits.maxSingleAssetPct);
    SleeveNavIs(p, o);
    hide Pct, SleeveNav, Exposure, SharesWithin, CheckConcentration;
  }

  lemma ConcentrationAccepts(m: map<string, real>, key: string, gross: real, size: real, limit: real)
    requires gross + size != 0.0 && gross >= 0.0 && size >= 0.0
    requires SharesWithin(m[key := Exposure(m, key) + size], gross + size, limit)
    ensures CheckConcentration(Exposure(m, key), size, gross, limit) != Failed
  {
    hide Pct;
    var after := m[key := Exposure(m, key) + size];
    assert Exposure(after, key) == Exposure(m, key) + size;
    PctIff(Exposure(m, key) + size, gross + size, limit);
  }

  /**
   From a portfolio within its limits, no sequence of orders can take it out of them through the gate: gross and net
   exposure, leverage, liquidity, and the concentration of every venue and asset, traded or not. The empty portfolio
   is included.
   */
  lemma {:induction false} GateKeepsLimits(p: Portfolio, orders: seq<Order>, limits: RiskLimits)
    requires WithinLimits(p, limits) && NonNegativeSizes(orders)
    ensures WithinLimits(Run(p, orders, limits), limits)
  {
    hide WithinLimits, Accepts, Apply;
    if orders != [] {
      var front, o := orders[..|orders| - 1], orders[|orders| - 1];
      GateKeepsLimits(p, front, limits);
      var before := Run(p, front, limits);
      if Accepts(o, before, limits) {
        ApplyKeepsLimits(before, o, limits);
      }
    }
  }

  // ---- Warnings ----

  /** Within the limit, and not in the band below it in which the gate warns. */
  predicate Comfortable(actual: real, limit: real, share: real) {
    actual <= limit && actual <= limit * share
  }

  /** No check fails or warns exactly when every figure keeps its distance from its limit. */
  lemma AllPassIff(o: Order, p: Portfolio, limits: RiskLimits)
    requires p.totalNav > 0.0 && p.grossExposure + o.positionSizeUsd > 0.0 && SleeveNav(p, o) > 0.0
    ensures var gross := p.grossExposure + o.positionSizeUsd;
      var reservePct := Pct(p.liquidityReserve - o.requiredMarginUsd, p.totalNav);
      (forall i :: 0 <= i < |Results(o, p, limits)| ==> Results(o, p, limits)[i] == Passed) <==>
        && !o.anyBreakerOpen
        && Comfortable(o.priceAgeSec, limits.maxPriceAgeSec, 0.8)
        && Comfortable(Pct(gross, p.totalNav), limits.maxGrossExposurePct, 0.9)
        && Comfortable(Pct(Abs(p.netExposure + o.deltaUsd), p.totalNav), limits.maxNetExposurePct, 0.9)
        && Comfortable(Pct(Exposure(p.venueExposures, o.venueId) + o.positionSizeUsd, gross), limits.maxSingleVenuePct, 0.9)
        && Comfortable(Pct(Exposure(p.assetExposures, o.asset) + o.positionSizeUsd, gross), limits.maxSingleAssetPct, 0.9)
        && Comfortable(gross / p.totalNav, limits.maxLeverage, 0.9)
        && limits.minLiquidityReservePct <= reservePct && limits.minLiquidityReservePct * 1.2 <= reservePct
        && Comfortable(p.dailyDrawdownPct, limits.maxDailyDrawdownPct, 0.9)
        && Comfortable(p.weeklyDrawdownPct, limits.maxWeeklyDrawdownPct, 0.9)
        && Comfortable(p.portfolioDrawdownPct, limits.maxPortfolioDrawdownPct, 0.9)
        && Comfortable(Pct(o.positionSizeUsd, SleeveNav(p, o)), limits.maxPositionSizePct, 0.9)
        && p.openPositionCount < limits.maxOpportunityCount
        && p.openPositionCount < (limits.maxOpportunityCount as real * 0.9).Floor
  {
    hide Pct, SleeveNav, Exposure, Abs;
    forall actual: real, limit: real, share: real
      ensures UpTo(actual, limit, share) == Passed <==> Comfortable(actual, limit, share)
    {
    }
    hide UpTo, Comfortable;
    var r := Results(o, p, limits);
    if !o.anyBreakerOpen {
      assert |r| == 12;
      assert (forall i :: 0 <= i < |r| ==> r[i] == Passed)
        <==> r[0] == r[1] == r[2] == r[3] == r[4] == r[5] == r[6] == r[7] == r[8] == r[9] == r[10] == r[11] == Passed;
    } else {
      assert r[0] == Failed;
    }
  }

  // ---- Starting from nothing ----

  ghost predicate IsEmpty(p: Portfolio) {
    && p.grossExposure == 0.0
    && (forall k: string :: Exposure(p.venueExposures, k) == 0.0 && Exposure(p.assetExposures, k) == 0.0)
  }

  /** The first order is all of its venue's and all of its asset's exposure. */
  lemma FirstOrderIsEverything(size: real, limit: real)
    requires size >= 0.0
    ensures CheckConcentration(0.0, size, 0.0, limit) != Failed <==> size > 0.0 && limit >= 100.0
  {
    if size > 0.0 {
      assert size / size == 1.0;
      assert Pct(0.0 + size, 0.0 + size) == 100.0;
    }
  }

  /** With a concentration limit below 100 % nothing ever gets through the gate of an empty portfolio. */
  lemma {:induction false} ColdStart(p: Portfolio, orders: seq<Order>, limits: RiskLimits)
    requires IsEmpty(p) && NonNegativeSizes(orders)
    requires limits.maxSingleVenuePct < 100.0 || limits.maxSingleAssetPct < 100.0
    ensures Run(p, orders, limits) == p
  {
    hide Accepts, CheckConcentration;
    if orders != [] {
      var front, o := orders[..|orders| - 1], orders[|orders| - 1];
      ColdStart(p, front, limits);
      if Accepts(o, p, limits) {
        AcceptedMeans(o, p, limits);
        FirstOrderIsEverything(o.positionSizeUsd, limits.maxSingleVenuePct);
        FirstOrderIsEverything(o.positionSizeUsd, limits.maxSingleAssetPct);
        assert false;
      }
    }
  }

  /** The breaker is closed and every check other than the two of concentration lets the order through. */
  predicate PassesOtherChecks(o: Order, p: Portfolio, limits: RiskLimits) {
    && !o.anyBreakerOpen
    && forall i :: 0 <= i < |Results(o, p, limits)| && i != 3 && i != 4 ==> Results(o, p, limits)[i] != Failed
  }

  /**
   Exactly when an empty portfolio can never grow, although some order passes everything but concentration: when one
   of the two concentration limits is below 100 %, as both are by default.
   */
  lemma ColdStartIff(p: Portfolio, o: Order, limits: RiskLimits)
    requires IsEmpty(p) && o.positionSizeUsd > 0.0 && PassesOtherChecks(o, p, limits)
    ensures (forall orders :: NonNegativeSizes(orders) ==> Run(p, orders, limits) == p)
      <==> limits.maxSingleVenuePct < 100.0 || limits.maxSingleAssetPct < 100.0
  {
    if limits.maxSingleVenuePct < 100.0 || limits.maxSingleAssetPct < 100.0 {
      forall orders | NonNegativeSizes(orders)
        ensures Run(p, orders, limits) == p
      {
        ColdStart(p, orders, limits);
      }
    } else {
      FirstOrderIsAccepted(p, o, limits);
      hide Accepts;
      assert [o][..0] == [];
      assert NonNegativeSizes([o]) && Run(p, [o], limits) == Apply(p, o);
      assert Apply(p, o).grossExposure != p.grossExposure;
    }
  }

  lemma FirstOrderIsAccepted(p: Portfolio, o: Order, limits: RiskLimits)
    requires IsEmpty(p) && o.positionSizeUsd > 0.0 && PassesOtherChecks(o, p, limits)
    requires limits.maxSingleVenuePct >= 100.0 && limits.maxSingleAssetPct >= 100.0
    ensures Accepts(o, p, limits)
  {
    FirstOrderIsEverything(o.positionSizeUsd, limits.maxSingleVenuePct);
    FirstOrderIsEverything(o.positionSizeUsd, limits.maxSingleAssetPct);
    hide CheckGrossExposure, CheckNetExposure, CheckConcentration, CheckLeverage, CheckLiquidityReserve,
         CheckPositionSize, CheckOpenPositions, UpTo, SleeveNav, Exposure;
    var r := Results(o, p, limits);
    assert r[3] != Failed && r[4] != Failed;
  }

  // ---- Orders assessed together ----

  /** All orders are assessed against one state, and those not 'failed' are applied. */
  function Batch(p: Portfolio, orders: seq<Order>, limits: RiskLimits): Portfolio {
    if orders == [] then p
    else
      var before, o := Batch(p, orders[..|orders| - 1], limits), orders[|orders| - 1];
      if Accepts(o, p, limits) then Apply(before, o) else before
  }

  function Accepted(p: Portfolio, orders: seq<Order>, limits: RiskLimits): seq<Order> {
    if orders == [] then []
    else
      var o := orders[|orders| - 1];
      Accepted(p, orders[..|orders| - 1], limits) + if Accepts(o, p, limits) then [o] else []
  }

  ghost function SizeOf(): Order -> real {
    (o: Order) => o.positionSizeUsd
  }

  ghost function DeltaOf(): Order -> real {
    (o: Order) => o.deltaUsd
  }

  ghost function MarginOf(): Order -> real {
    (o: Order) => o.requiredMarginUsd
  }

  ghost function SizeAt(venue: string): Order -> real {
    (o: Order) => if o.venueId == venue then o.positionSizeUsd else 0.0
  }

  ghost function SizeIn(asset: string): Order -> real {
    (o: Order) => if o.asset == asset then o.positionSizeUsd else 0.0
  }

  /** `after` is `p` with all these orders added to it. */
  ghost predicate IsSum(p: Portfolio, orders: seq<Order>, after: Portfolio) {
    && after.totalNav == p.totalNav
    && after.grossExposure == p.grossExposure + Sums.Sum(orders, SizeOf())
    && after.netExposure == p.netExposure + Sums.Sum(orders, DeltaOf())
    && after.liquidityReserve == p.liquidityReserve - Sums.Sum(orders, MarginOf())
    && after.openPositionCount == p.openPositionCount + |orders|
    && (forall k: string :: Exposure(after.venueExposures, k) == Exposure(p.venueExposures, k) + Sums.Sum(orders, SizeAt(k)))
    && (forall k: string :: Exposure(after.assetExposures, k) == Exposure(p.assetExposures, k) + Sums.Sum(orders, SizeIn(k)))
  }

  lemma NothingAdded(p: Portfolio)
    ensures IsSum(p, [], p)
  {
  }

  lemma AddOne(p: Portfolio, orders: seq<Order>, before: Portfolio, o: Order)
    requires IsSum(p, orders, before)
    ensures IsSum(p, orders + [o], Apply(before, o))
  {
    hide Sums.Sum;
    AddsUp(orders, o, SizeOf());
    AddsUp(orders, o, DeltaOf());
    AddsUp(orders, o, MarginOf());
    forall k: string
      ensures Sums.Sum(orders + [o], SizeAt(k)) == Sums.Sum(orders, SizeAt(k)) + SizeAt(k)(o)
      ensures Sums.Sum(orders + [o], SizeIn(k)) == Sums.Sum(orders, SizeIn(k)) + SizeIn(k)(o)
    {
      AddsUp(orders, o, SizeAt(k));
      AddsUp(orders, o, SizeIn(k));
    }
  }

  lemma AddsUp(orders: seq<Order>, o: Order, f: Order -> real)
    ensures Sums.Sum(orders + [o], f) == Sums.Sum(orders, f) + f(o)
  {
    assert (orders + [o])[..|orders|] == orders;
  }

  lemma {:induction false} BatchIsSum(p: Portfolio, orders: seq<Order>, limits: RiskLimits)
    ensures IsSum(p, Accepted(p, orders, limits), Batch(p, orders, limits))
  {
    hide Accepts, IsSum, Apply;
    if orders == [] {
      NothingAdded(p);
    } else {
      var front, o := orders[..|orders| - 1], orders[|orders| - 1];
      BatchIsSum(p, front, limits);
      if Accepts(o, p, limits) {
        AddOne(p, Accepted(p, front, limits), Batch(p, front, limits), o);
      } else {
        assert Accepted(p, orders, limits) == Accepted(p, front, limits);
      }
    }
  }

  /** All orders together fit into every limit. */
  ghost predicate FitTogether(p: Portfolio, orders: seq<Order>, limits: RiskLimits) {
    var gross := p.grossExposure + Sums.Sum(orders, SizeOf());
    && AmountsFit(p.totalNav, gross, p.netExposure + Sums.Sum(orders, DeltaOf()),
                  p.liquidityReserve - Sums.Sum(orders, MarginOf()), limits)
    && p.openPositionCount + |orders| <= limits.maxOpportunityCount
    && VenuesFit(p, orders, gross, limits.maxSingleVenuePct) && AssetsFit(p, orders, gross, limits.maxSingleAssetPct)
  }

  predicate AmountsFit(nav: real, gross: real, net: real, reserve: real, limits: RiskLimits) {
    && 0.0 <= gross <= limits.maxLeverage * nav
    && gross * 100.0 <= limits.maxGrossExposurePct * nav
    && Abs(net) * 100.0 <= limits.maxNetExposurePct * nav
    && limits.minLiquidityReservePct * nav <= reserve * 100.0
  }

  lemma AmountsFitIff(q: Portfolio, limits: RiskLimits)
    requires q.totalNav > 0.0
    ensures AmountsFit(q.totalNav, q.grossExposure, q.netExposure, q.liquidityReserve, limits)
      <==> && q.grossExposure >= 0.0
           && Pct(q.grossExposure, q.totalNav) <= limits.maxGrossExposurePct
           && Pct(Abs(q.netExposure), q.totalNav) <= limits.maxNetExposurePct
           && q.grossExposure / q.totalNav <= limits.maxLeverage
           && Pct(q.liquidityReserve, q.totalNav) >= limits.minLiquidityReservePct
  {
    hide Pct;
    PctIff(q.grossExposure, q.totalNav, limits.maxGrossExposurePct);
    PctIff(Abs(q.netExposure), q.totalNav, limits.maxNetExposurePct);
    QuotientIff(q.grossExposure, q.totalNav, limits.maxLeverage);
    AtLeastIff(q.liquidityReserve, q.totalNav, limits.minLiquidityReservePct);
  }

  ghost predicate VenuesFit(p: Portfolio, orders: seq<Order>, gross: real, limit: real) {
    limit >= 0.0 && forall k: string :: (Exposure(p.venueExposures, k) + Sums.Sum(orders, SizeAt(k))) * 100.0 <= limit * gross
  }

  ghost predicate AssetsFit(p: Portfolio, orders: seq<Order>, gross: real, limit: real) {
    limit >= 0.0 && forall k: string :: (Exposure(p.assetExposures, k) + Sums.Sum(orders, SizeIn(k))) * 100.0 <= limit * gross
  }

  lemma SharesFitIff(p: Portfolio, orders: seq<Order>, after: Portfolio, gross: real, limit: real)
    requires IsSum(p, orders, after)
    ensures SharesWithin(after.venueExposures, gross, limit) <==> VenuesFit(p, orders, gross, limit)
    ensures SharesWithin(after.assetExposures, gross, limit) <==> AssetsFit(p, orders, gross, limit)
  {
    hide Exposure, Sums.Sum, SizeAt, SizeIn;
  }

  lemma AtLeastIff(part: real, whole: real, limit: real)
    requires whole > 0.0
    ensures Pct(part, whole) >= limit <==> limit * whole <= part * 100.0
  {
    var q := part / whole;
    assert q * whole == part;
    assert (limit - q * 100.0) * whole == limit * whole - part * 100.0;
    assert q * 100.0 >= limit ==> (limit - q * 100.0) * whole <= 0.0;
    assert q * 100.0 < limit ==> (limit - q * 100.0) * whole > 0.0;
  }

  lemma QuotientIff(part: real, whole: real, limit: real)
    requires whole > 0.0
    ensures part / whole <= limit <==> part <= limit * whole
  {
    var q := part / whole;
    assert q * whole == part;
    assert (limit - q) * whole == limit * whole - part;
    assert q <= limit ==> (limit - q) * whole >= 0.0;
    assert q > limit ==> (limit - q) * whole < 0.0;
  }

  /** Exactly when a batch keeps the limits: its accepted orders fit together, not only each of them. */
  lemma BatchKeepsLimitsIff(p: Portfolio, orders: seq<Order>, limits: RiskLimits)
    requires p.totalNav > 0.0
    ensures WithinLimits(Batch(p, orders, limits), limits) <==> FitTogether(p, Accepted(p, orders, limits), limits)
  {
    BatchIsSum(p, orders, limits);
    var after := Batch(p, orders, limits);
    SharesFitIff(p, Accepted(p, orders, limits), after, after.grossExposure, limits.maxSingleVenuePct);
    SharesFitIff(p, Accepted(p, orders, limits), after, after.grossExposure, limits.maxSingleAssetPct);
    SumFits(p, Accepted(p, orders, limits), after, limits);
    assert after.totalNav == p.totalNav;
    hide IsSum, FitTogether, Pct, Accepts, Batch, Accepted, SharesWithin, VenuesFit, AssetsFit, AmountsFit, Abs;
    AmountsFitIff(after, limits);
  }

  lemma SumFits(p: Portfolio, orders: seq<Order>, after: Portfolio, limits: RiskLimits)
    requires IsSum(p, orders, after)
    ensures FitTogether(p, orders, limits)
      <==> && AmountsFit(after.totalNav, after.grossExposure, after.netExposure, after.liquidityReserve, limits)
           && after.openPositionCount <= limits.maxOpportunityCount
           && VenuesFit(p, orders, after.grossExposure, limits.maxSingleVenuePct)
           && AssetsFit(p, orders, after.grossExposure, limits.maxSingleAssetPct)
  {
    hide VenuesFit, AssetsFit, AmountsFit, Sums.Sum;
  }

  /** Assessed one after the other, every order that the batch accepts is accepted in its turn. */
  ghost predicate AcceptedInTurn(p: Portfolio, orders: seq<Order>, limits: RiskLimits) {
    forall n :: 0 <= n < |orders| ==>
      (Accepts(orders[n], p, limits) <==> Accepts(orders[n], Run(p, orders[..n], limits), limits))
  }

  /** A batch whose verdicts do not depend on the order before is as safe as a run. */
  lemma {:induction false} BatchIsRun(p: Portfolio, orders: seq<Order>, limits: RiskLimits)
    requires AcceptedInTurn(p, orders, limits)
    ensures Batch(p, orders, limits) == Run(p, orders, limits)
  {
    hide Accepts, Apply;
    if orders != [] {
      var front := orders[..|orders| - 1];
      assert forall n :: 0 <= n < |front| ==> front[..n] == orders[..n];
      assert orders[..|orders| - 1] == front;
      BatchIsRun(p, front, limits);
    }
  }

  /** The default limits, with the concentration limits that the runtime sets. */
  const RUNTIME_LIMITS: RiskLimits := RiskLimits(200.0, 20.0, 100.0, 100.0, 3.0, 10.0, 2.0, 5.0, 15.0, 30.0, 20.0, 10)

  /** Two orders of 80, each accepted at 190 % of NAV, together reach 206 % under a limit of 200 %. */
  lemma BatchBreaksALimit(venue: string, asset: string)
    ensures var p := Portfolio(1000.0, 1900.0, 0.0, 500.0, 0.0, 0.0, 0.0, map[], map[], map[], 0);
      var o := Order(venue, asset, "", 80.0, 80.0, 80.0, 0.0, false);
      && WithinLimits(p, RUNTIME_LIMITS)
      && Pct(Batch(p, [o, o], RUNTIME_LIMITS).grossExposure, p.totalNav) == 206.0
      && !WithinLimits(Batch(p, [o, o], RUNTIME_LIMITS), RUNTIME_LIMITS)
  {
    var p := Portfolio(1000.0, 1900.0, 0.0, 500.0, 0.0, 0.0, 0.0, map[], map[], map[], 0);
    var o := Order(venue, asset, "", 80.0, 80.0, 80.0, 0.0, false);
    EmptySharesWithin(1900.0);
    SmallOrderIsAccepted(p, o);
    hide Accepts;
    assert [o, o][..1] == [o] && [o][..0] == [];
    assert Batch(p, [], RUNTIME_LIMITS) == p;
    assert Batch(p, [o], RUNTIME_LIMITS) == Apply(p, o);
    assert Batch(p, [o, o], RUNTIME_LIMITS) == Apply(Apply(p, o), o);
  }

  lemma EmptySharesWithin(gross: real)
    requires gross >= 0.0
    ensures SharesWithin(map[], gross, 100.0)
  {
  }

  lemma SmallOrderIsAccepted(p: Portfolio, o: Order)
    requires p == Portfolio(1000.0, 1900.0, 0.0, 500.0, 0.0, 0.0, 0.0, map[], map[], map[], 0)
    requires o == Order(o.venueId, o.asset, "", 80.0, 80.0, 80.0, 0.0, false)
    ensures Accepts(o, p, RUNTIME_LIMITS)
  {
    PctIff(80.0, 1980.0, 100.0);
  }

  // ---- Fills ----

  /** One fill as `computeStateAfterFill` reads it; the venue and asset maps and the position count are not its concern. */
  datatype FillDelta = FillDelta(notionalUsd: real, isShort: bool, isClosing: bool, fee: real)

  /** What a fill takes from the reserve: a margin approximated through the maximal leverage, and the fee. */
  function Consumed(f: FillDelta, limits: RiskLimits): real
    requires limits.maxLeverage != 0.0
  {
    (if f.isClosing then 0.0 else f.notionalUsd / limits.maxLeverage) + f.fee
  }

  function ComputeStateAfterFill(p: Portfolio, f: FillDelta, limits: RiskLimits): Portfolio
    requires limits.maxLeverage != 0.0
  {
    var delta := if f.isShort then -f.notionalUsd else f.notionalUsd;
    p.(grossExposure := p.grossExposure + (if f.isClosing then -f.notionalUsd else f.notionalUsd),
       netExposure := p.netExposure + (if f.isClosing then -delta else delta),
       liquidityReserve := p.liquidityReserve - Consumed(f, limits))
  }

  /** Whatever the reserve was, the check of an order's margin protects it from the fill exactly when the margin covers it. */
  lemma FillKeepsReserveIff(f: FillDelta, margin: real, limits: RiskLimits)
    requires limits.maxLeverage != 0.0
    ensures (forall p: Portfolio :: p.totalNav > 0.0 && ReserveAllows(p, margin, limits) ==> ReserveHolds(ComputeStateAfterFill(p, f, limits), limits))
      <==> Consumed(f, limits) <= margin
  {
    hide Consumed;
    if Consumed(f, limits) <= margin {
      forall p: Portfolio | p.totalNav > 0.0 && ReserveAllows(p, margin, limits)
        ensures ReserveHolds(ComputeStateAfterFill(p, f, limits), limits)
      {
        SmallerPart(p.liquidityReserve - Consumed(f, limits), p.liquidityReserve - margin, p.totalNav);
      }
    } else {
      var reserve := margin + limits.minLiquidityReservePct / 100.0;
      var p := Portfolio(1.0, 0.0, 0.0, reserve, 0.0, 0.0, 0.0, map[], map[], map[], 0);
      assert ReserveAllows(p, margin, limits);
      assert !ReserveHolds(ComputeStateAfterFill(p, f, limits), limits);
    }
  }

  predicate ReserveAllows(p: Portfolio, margin: real, limits: RiskLimits) {
    CheckLiquidityReserve(p.liquidityReserve, margin, p.totalNav, limits) != Failed
  }

  predicate ReserveHolds(p: Portfolio, limits: RiskLimits) {
    p.totalNav != 0.0 && Pct(p.liquidityReserve, p.totalNav) >= limits.minLiquidityReservePct
  }

  /** Filling an accepted order in full reaches the projected gross and net exposure, and the reserve limit if its margin covers the fill. */
  lemma FilledOrderKeepsLimits(p: Portfolio, o: Order, f: FillDelta, limits: RiskLimits)
    requires p.totalNav > 0.0 && limits.maxLeverage != 0.0 && Accepts(o, p, limits)
    requires !f.isClosing && f.notionalUsd == o.positionSizeUsd && o.deltaUsd == (if f.isShort then -f.notionalUsd else f.notionalUsd)
    requires Consumed(f, limits) <= o.requiredMarginUsd
    ensures var after := ComputeStateAfterFill(p, f, limits);
      && after.grossExposure == Apply(p, o).grossExposure && after.netExposure == Apply(p, o).netExposure
      && Pct(after.grossExposure, p.totalNav) <= limits.maxGrossExposurePct
      && Pct(Abs(after.netExposure), p.totalNav) <= limits.maxNetExposurePct
      && after.grossExposure / p.totalNav <= limits.maxLeverage
      && ReserveHolds(after, limits)
  {
    AcceptedMeans(o, p, limits);
    hide Accepts, Consumed, Pct;
    FillKeepsReserveIff(f, o.requiredMarginUsd, limits);
  }

  /** Opening and closing the same notional restores the exposures but not the reserve: margin is never given back. */
  lemma CloseDoesNotReturnMargin(p: Portfolio, open: FillDelta, fee: real, limits: RiskLimits)
    requires limits.maxLeverage != 0.0 && !open.isClosing
    ensures var close := FillDelta(open.notionalUsd, open.isShort, true, fee);
      ComputeStateAfterFill(ComputeStateAfterFill(p, open, limits), close, limits)
      == p.(liquidityReserve := p.liquidityReserve - open.notionalUsd / limits.maxLeverage - open.fee - fee)
  {
  }

  // ---- Smaller orders ----

  function Severity(s: Status): int {
    match s
    case Passed => 0
    case Warning => 1
    case Failed => 2
  }

  lemma LowerIsNoWorse(actual: real, lower: real, limit: real, factor: real)
    requires lower <= actual
    ensures Severity(UpTo(lower, limit, factor)) <= Severity(UpTo(actual, limit, factor))
  {
  }

  lemma SmallerShare(exposure: real, gross: real, size: real, smaller: real)
    requires 0.0 <= gross && exposure <= gross && 0.0 < smaller <= size
    ensures Pct(exposure + smaller, gross + smaller) <= Pct(exposure + size, gross + size)
  {
    var limit := Pct(exposure + size, gross + size);
    PctIff(exposure + size, gross + size, limit);
    PctIff(exposure + smaller, gross + smaller, limit);
    PctIff(exposure + size, gross + size, 100.0);
    assert (100.0 - limit) * (size - smaller) >= 0.0;
  }

  lemma SmallerPart(part: real, smaller: real, whole: real)
    requires whole > 0.0 && smaller <= part
    ensures smaller / whole <= part / whole
    ensures Pct(smaller, whole) <= Pct(part, whole)
  {
    var q, r := part / whole, smaller / whole;
    assert q * whole == part && r * whole == smaller;
    assert r > q ==> (r - q) * whole > 0.0;
  }

  lemma SmallerConcentration(exposure: real, gross: real, size: real, smaller: real, limitPct: real)
    requires 0.0 <= gross && exposure <= gross && 0.0 < smaller <= size
    ensures Severity(CheckConcentration(exposure, smaller, gross, limitPct))
         <= Severity(CheckConcentration(exposure, size, gross, limitPct))
  {
    hide Pct, UpTo;
    SmallerShare(exposure, gross, size, smaller);
    LowerIsNoWorse(Pct(exposure + size, gross + size), Pct(exposure + smaller, gross + smaller), limitPct, 0.90);
  }

  /** Shrinking an order never makes a size-dependent check worse: what passed passes, what only warned does not fail. */
  lemma SmallerOrderIsNoWorse(o: Order, p: Portfolio, smaller: real, limits: RiskLimits)
    requires p.totalNav >= 0.0 && p.grossExposure >= 0.0 && SleeveNav(p, o) >= 0.0
    requires Exposure(p.venueExposures, o.venueId) <= p.grossExposure && Exposure(p.assetExposures, o.asset) <= p.grossExposure
    requires 0.0 < smaller <= o.positionSizeUsd
    ensures var gross, nav, size := p.grossExposure, p.totalNav, o.positionSizeUsd;
      var venue, asset := Exposure(p.venueExposures, o.venueId), Exposure(p.assetExposures, o.asset);
      && Severity(CheckGrossExposure(gross, smaller, nav, limits)) <= Severity(CheckGrossExposure(gross, size, nav, limits))
      && Severity(CheckLeverage(gross, smaller, nav, limits)) <= Severity(CheckLeverage(gross, size, nav, limits))
      && Severity(CheckConcentration(venue, smaller, gross, limits.maxSingleVenuePct))
         <= Severity(CheckConcentration(venue, size, gross, limits.maxSingleVenuePct))
      && Severity(CheckConcentration(asset, smaller, gross, limits.maxSingleAssetPct))
         <= Severity(CheckConcentration(asset, size, gross, limits.maxSingleAssetPct))
      && Severity(CheckPositionSize(smaller, SleeveNav(p, o), limits)) <= Severity(CheckPositionSize(size, SleeveNav(p, o), limits))
  {
    hide Pct, SleeveNav, Exposure, UpTo, CheckConcentration;
    var gross, nav, size := p.grossExposure, p.totalNav, o.positionSizeUsd;
    if nav > 0.0 {
      SmallerPart(gross + size, gross + smaller, nav);
      LowerIsNoWorse(Pct(gross + size, nav), Pct(gross + smaller, nav), limits.maxGrossExposurePct, 0.90);
      LowerIsNoWorse((gross + size) / nav, (gross + smaller) / nav, limits.maxLeverage, 0.90);
    }
    SmallerConcentration(Exposure(p.venueExposures, o.venueId), gross, size, smaller, limits.maxSingleVenuePct);
    SmallerConcentration(Exposure(p.assetExposures, o.asset), gross, size, smaller, limits.maxSingleAssetPct);
    if SleeveNav(p, o) > 0.0 {
      SmallerPart(size, smaller, SleeveNav(p, o));
      LowerIsNoWorse(Pct(size, SleeveNav(p, o)), Pct(smaller, SleeveNav(p, o)), limits.maxPositionSizePct, 0.90);
    }
  }
}
