/**
 The carry portfolio on values: scores, selection limits, position sizes, and one step of the sizing loop.
 Percentages and money are exact reals; the rounding the source writes (`toFixed`, `toDecimalPlaces`) is kept.
 */
module PortfolioModel {
  import opened Basics
  import StableSort

  datatype CarryConfig = CarryConfig(
    defaultPositionSizePct: real,
    maxPositionSizePct: real,
    kellyCriterionFraction: real,
    maxConcurrentOpportunities: int,
    maxOpportunitiesPerAsset: int,
    maxOpportunitiesPerVenue: int,
    maxAssetExposurePct: real,
    maxVenueExposurePct: real)

  /** `legs` lists the venue of each leg. */
  datatype Opportunity = Opportunity(
    asset: string,
    netYieldPct: real,
    expectedAnnualYieldPct: real,
    confidenceScore: real,
    legs: seq<string>)

  // ---- Scores ----

  function Clamp(value: real): real {
    Max(0.0, Min(value, 1.0))
  }

  function VenueSet(o: Opportunity): set<string> {
    set i | 0 <= i < |o.legs| :: o.legs[i]
  }

  function TotalScore(o: Opportunity, selectedAssets: set<string>, selectedVenues: set<string>): real {
    var yieldScore := Clamp(o.netYieldPct / 20.0);
    var confidenceScore := Clamp(o.confidenceScore);
    var breadth := if |o.legs| == 0 then 0.0 else |VenueSet(o)| as real / |o.legs| as real;
    var newVenues := |VenueSet(o) - selectedVenues| as real;
    var diversification :=
      Clamp((if o.asset in selectedAssets then 0.0 else 0.65) + Min(0.35, newVenues * 0.15));
    ToFixed(yieldScore * 0.5 + confidenceScore * 0.25 + Clamp(breadth) * 0.1 + diversification * 0.15, 10000.0)
  }

  function Assets(selected: seq<Opportunity>): set<string> {
    set i | 0 <= i < |selected| :: selected[i].asset
  }

  function Venues(selected: seq<Opportunity>): set<string> {
    if selected == [] then {} else Venues(selected[..|selected| - 1]) + VenueSet(selected[|selected| - 1])
  }

  /** The score of `o` when `selected` has been chosen. */
  function ScoreAfter(o: Opportunity, selected: seq<Opportunity>): real {
    TotalScore(o, Assets(selected), Venues(selected))
  }

  // ---- Selection limits ----

  function AssetCount(selected: seq<Opportunity>, asset: string): nat {
    if selected == [] then 0
    else AssetCount(selected[..|selected| - 1], asset) + if selected[|selected| - 1].asset == asset then 1 else 0
  }

  function VenueCount(selected: seq<Opportunity>, venue: string): nat {
    if selected == [] then 0
    else VenueCount(selected[..|selected| - 1], venue) + if venue in VenueSet(selected[|selected| - 1]) then 1 else 0
  }

  /** Taking `o` after `selected` would break the asset limit or the limit of one of its venues. */
  predicate LimitReached(o: Opportunity, selected: seq<Opportunity>, config: CarryConfig) {
    || AssetCount(selected, o.asset) >= config.maxOpportunitiesPerAsset
    || exists v :: v in VenueSet(o) && VenueCount(selected, v) >= config.maxOpportunitiesPerVenue
  }

  /** A rejection remembers how many opportunities had been selected by then. */
  datatype Reason = Limit | BudgetExhausted
  datatype Rejection = Rejection(opportunity: Opportunity, reason: Reason, after: nat)

  datatype Selection = Selection(selected: seq<Opportunity>, rejected: seq<Rejection>)

  function ByScore(remaining: seq<Opportunity>, selected: seq<Opportunity>): (r: seq<Opportunity>)
    ensures |r| == |remaining|
  {
    var key := (o: Opportunity) => -ScoreAfter(o, selected);
    StableSort.SortByCorrect(remaining, key);
    StableSort.SortBy(remaining, key)
  }

  function RejectAll(remaining: seq<Opportunity>, after: nat): seq<Rejection> {
    seq(|remaining|, i requires 0 <= i < |remaining| => Rejection(remaining[i], BudgetExhausted, after))
  }

  /** The greedy loop from a given state on. */
  function SelectFrom(remaining: seq<Opportunity>, so: Selection, config: CarryConfig): Selection
    decreases |remaining|
  {
    if remaining == [] || |so.selected| >= config.maxConcurrentOpportunities then
      so.(rejected := so.rejected + RejectAll(remaining, |so.selected|))
    else
      var sorted := ByScore(remaining, so.selected);
      if LimitReached(sorted[0], so.selected, config) then
        SelectFrom(sorted[1..], so.(rejected := so.rejected + [Rejection(sorted[0], Limit, |so.selected|)]), config)
      else SelectFrom(sorted[1..], so.(selected := so.selected + [sorted[0]]), config)
  }

  // ---- Sizes ----

  function PctOf(nav: real, pct: real): real {
    nav * pct / 100.0
  }

  function ShareOf(amount: real, nav: real): real
    requires nav != 0.0
  {
    amount / nav * 100.0
  }

  function KellyPct(yieldPct: real, confidence: real, config: CarryConfig): real {
    yieldPct / 100.0 * confidence * config.kellyCriterionFraction * 100.0
  }

  function SizePct(yieldPct: real, confidence: real, config: CarryConfig, remainingPct: real): (pct: real)
    ensures pct <= remainingPct
  {
    Min(Min(Max(KellyPct(yieldPct, confidence, config), config.defaultPositionSizePct), config.maxPositionSizePct),
        remainingPct)
  }

  function ComputePositionSize(nav: real, yieldPct: real, confidence: real, config: CarryConfig,
                               currentExposurePct: real): real {
    if nav == 0.0 then 0.0
    else
      var remainingPct := config.maxPositionSizePct - currentExposurePct;
      if remainingPct <= 0.0 then 0.0
      else ToFixed(PctOf(nav, SizePct(yieldPct, confidence, config, remainingPct)), 100.0)
  }

  function ComputeMaxAllowedSize(nav: real, currentPositions: int, config: CarryConfig): real {
    if nav == 0.0 then 0.0
    else if currentPositions >= config.maxConcurrentOpportunities then 0.0
    else
      var slots := (config.maxConcurrentOpportunities - currentPositions) as real;
      ToFixed(Min(PctOf(nav, config.maxPositionSizePct) / slots, PctOf(nav, config.defaultPositionSizePct)), 100.0)
  }

  function LegCount(legs: seq<string>, venue: string): nat {
    if legs == [] then 0 else LegCount(legs[..|legs| - 1], venue) + if legs[|legs| - 1] == venue then 1 else 0
  }

  function Weight(o: Opportunity, venue: string): real
    requires o.legs != []
  {
    LegCount(o.legs, venue) as real / |o.legs| as real
  }

  /** Venues of the legs in order of first use, as the keys of the weight map. */
  function DistinctVenues(legs: seq<string>): (r: seq<string>)
    ensures forall v :: v in r <==> v in legs
    ensures forall i, j :: 0 <= i < j < |r| ==> r[i] != r[j]
  {
    if legs == [] then []
    else
      var front := DistinctVenues(legs[..|legs| - 1]);
      if legs[|legs| - 1] in front then front else front + [legs[|legs| - 1]]
  }

  // ---- The sizing loop ----

  datatype Book = Book(gross: real, openPositions: int, assets: map<string, real>, venues: map<string, real>)

  /** Room at a venue, expressed as notional of the whole opportunity. */
  function VenueRoom(book: Book, o: Opportunity, venue: string, venueCap: real): real
    requires o.legs != []
  {
    var room := venueCap - Exposure(book.venues, venue);
    if Weight(o, venue) <= 0.0 then room else room / Weight(o, venue)
  }

  function LeastRoom(book: Book, o: Opportunity, venues: seq<string>, venueCap: real, start: real): (r: real)
    requires venues != [] ==> o.legs != []
    ensures r <= start
    ensures forall i :: 0 <= i < |venues| ==> r <= VenueRoom(book, o, venues[i], venueCap)
  {
    if venues == [] then start
    else
      Min(LeastRoom(book, o, venues[..|venues| - 1], venueCap, start),
          VenueRoom(book, o, venues[|venues| - 1], venueCap))
  }

  function TargetSize(book: Book, o: Opportunity, nav: real, config: CarryConfig): real
    requires nav != 0.0
  {
    ComputePositionSize(nav, o.expectedAnnualYieldPct, o.confidenceScore, config, ToFixed(ShareOf(book.gross, nav), 10000.0))
  }

  /** The most restrictive of target size, slot size, asset room and venue rooms. */
  function PositionSize(book: Book, o: Opportunity, nav: real, config: CarryConfig): (size: real)
    requires nav != 0.0
  {
    var assetRoom := PctOf(nav, config.maxAssetExposurePct) - Exposure(book.assets, o.asset);
    var bounded := Min(Min(TargetSize(book, o, nav, config), ComputeMaxAllowedSize(nav, book.openPositions, config)), assetRoom);
    LeastRoom(book, o, DistinctVenues(o.legs), PctOf(nav, config.maxVenueExposurePct), bounded)
  }

  function AddToVenues(m: map<string, real>, o: Opportunity, venues: seq<string>, size: real): (r: map<string, real>)
    requires venues != [] ==> o.legs != []
  {
    if venues == [] then m
    else
      var v := venues[|venues| - 1];
      var before := AddToVenues(m, o, venues[..|venues| - 1], size);
      before[v := Exposure(before, v) + Worth(size, Weight(o, v))]
  }

  /** One opportunity: the size it gets, if any, and the book afterwards. */
  function SizeOne(book: Book, o: Opportunity, nav: real, config: CarryConfig): (Book, Option<real>)
    requires nav != 0.0
  {
    var size := PositionSize(book, o, nav, config);
    if size <= 0.0 then (book, None)
    else
      var granted := RoundDown(size, 100.0);
      (Book(book.gross + granted,
            book.openPositions + 1,
            book.assets[o.asset := Exposure(book.assets, o.asset) + granted],
            AddToVenues(book.venues, o, DistinctVenues(o.legs), granted)),
       Some(granted))
  }

  function SizeAll(book: Book, selected: seq<Opportunity>, nav: real, config: CarryConfig): Book
    requires nav != 0.0
  {
    if selected == [] then book
    else SizeOne(SizeAll(book, selected[..|selected| - 1], nav, config), selected[|selected| - 1], nav, config).0
  }
}
