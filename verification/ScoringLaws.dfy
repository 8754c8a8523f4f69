/**
 What scores and sizes mean, without the functions that compute them: the weight of each term of a score, who is
 picked first, which bound a size meets, and how a size spreads over its venues.
 */
module ScoringLaws {
  import opened Basics
  import opened PortfolioModel
  import opened PortfolioLaws

  // ---- Scores ----

  /** `a` and `b` differ by `d`, up to one unit of the fourth decimal. */
  predicate DiffersBy(a: real, b: real, d: real) {
    d - 0.0001 <= a - b <= d + 0.0001
  }

  lemma FourDecimals(x: real)
    ensures -0.00005 <= ToFixed(x, 10000.0) - x <= 0.00005
  {
  }

  /** The score before rounding. */
  function Unrounded(o: Opportunity, assets: set<string>, venues: set<string>): real {
    Clamp(o.netYieldPct / 20.0) * 0.5 + Clamp(o.confidenceScore) * 0.25 + Clamp(Breadth(o)) * 0.1
    + Clamp((if o.asset in assets then 0.0 else 0.65) + Min(0.35, NewVenues(o, venues) as real * 0.15)) * 0.15
  }

  /** Distinct venues per leg. */
  function Breadth(o: Opportunity): real {
    if |o.legs| == 0 then 0.0 else |VenueSet(o)| as real / |o.legs| as real
  }

  function NewVenues(o: Opportunity, venues: set<string>): nat {
    |VenueSet(o) - venues|
  }

  lemma ScoreIsUnrounded(o: Opportunity, assets: set<string>, venues: set<string>)
    ensures -0.00005 <= TotalScore(o, assets, venues) - Unrounded(o, assets, venues) <= 0.00005
  {
    FourDecimals(Unrounded(o, assets, venues));
    hide ToFixed, Clamp, VenueSet;
  }

  /** The first two terms of the score apart from the rest. */
  function Rest(o: Opportunity, assets: set<string>, venues: set<string>): real {
    Clamp(Breadth(o)) * 0.1
    + Clamp((if o.asset in assets then 0.0 else 0.65) + Min(0.35, NewVenues(o, venues) as real * 0.15)) * 0.15
  }

  lemma UnroundedSplits(o: Opportunity, assets: set<string>, venues: set<string>)
    ensures Unrounded(o, assets, venues) == 0.025 * Max(0.0, Min(20.0, o.netYieldPct))
      + 0.25 * Max(0.0, Min(1.0, o.confidenceScore)) + Rest(o, assets, venues)
  {
    hide Breadth, NewVenues;
  }

  lemma SameRest(a: Opportunity, b: Opportunity, assets: set<string>, venues: set<string>)
    requires a.asset == b.asset && a.legs == b.legs
    ensures Rest(a, assets, venues) == Rest(b, assets, venues)
  {
    assert VenueSet(a) == VenueSet(b);
    hide VenueSet, Clamp;
  }

  /** A point of yield moves the score by 0.025, between 0 and 20 %; beyond, yield makes no difference. */
  lemma YieldMovesScore(a: Opportunity, b: Opportunity, assets: set<string>, venues: set<string>)
    requires a == b.(netYieldPct := a.netYieldPct)
    ensures DiffersBy(TotalScore(a, assets, venues), TotalScore(b, assets, venues),
                      0.025 * (Max(0.0, Min(20.0, a.netYieldPct)) - Max(0.0, Min(20.0, b.netYieldPct))))
  {
    hide TotalScore, Unrounded, Rest, Max, Min;
    ScoreIsUnrounded(a, assets, venues);
    ScoreIsUnrounded(b, assets, venues);
    UnroundedSplits(a, assets, venues);
    UnroundedSplits(b, assets, venues);
    SameRest(a, b, assets, venues);
  }

  /** A unit of confidence moves the score by 0.25, between 0 and 1. */
  lemma ConfidenceMovesScore(a: Opportunity, b: Opportunity, assets: set<string>, venues: set<string>)
    requires a == b.(confidenceScore := a.confidenceScore)
    ensures DiffersBy(TotalScore(a, assets, venues), TotalScore(b, assets, venues),
                      0.25 * (Max(0.0, Min(1.0, a.confidenceScore)) - Max(0.0, Min(1.0, b.confidenceScore))))
  {
    hide TotalScore, Unrounded, Rest, Max, Min;
    ScoreIsUnrounded(a, assets, venues);
    ScoreIsUnrounded(b, assets, venues);
    UnroundedSplits(a, assets, venues);
    UnroundedSplits(b, assets, venues);
    SameRest(a, b, assets, venues);
  }

  lemma BreadthRange(o: Opportunity)
    ensures 0.0 <= Breadth(o) <= 1.0
  {
    if |o.legs| > 0 {
      VenuesAtMostLegs(o.legs);
      assert VenueSet(o) == set i | 0 <= i < |o.legs| :: o.legs[i];
      QuotientAtMostOne(|VenueSet(o)|, |o.legs|);
    }
  }

  lemma QuotientAtMostOne(part: nat, whole: nat)
    requires part <= whole && whole > 0
    ensures 0.0 <= part as real / whole as real <= 1.0
  {
    var q := part as real / whole as real;
    var w := whole as real;
    assert q * w == part as real;
    assert q > 1.0 ==> (q - 1.0) * w > 0.0;
    assert (q - 1.0) * w == part as real - w;
    assert q < 0.0 ==> q * w < 0.0;
  }

  lemma {:induction false} VenuesAtMostLegs(legs: seq<string>)
    ensures |set i | 0 <= i < |legs| :: legs[i]| <= |legs|
  {
    if legs != [] {
      var front, last := legs[..|legs| - 1], legs[|legs| - 1];
      VenuesAtMostLegs(front);
      var venues := set i | 0 <= i < |front| :: front[i];
      assert (set i | 0 <= i < |legs| :: legs[i]) == venues + {last};
    }
  }

  /** A unit of breadth moves the score by 0.1, when the legs add equally many new venues. */
  lemma BreadthMovesScore(a: Opportunity, b: Opportunity, assets: set<string>, venues: set<string>)
    requires a == b.(legs := a.legs) && NewVenues(a, venues) == NewVenues(b, venues)
    ensures DiffersBy(TotalScore(a, assets, venues), TotalScore(b, assets, venues), 0.1 * (Breadth(a) - Breadth(b)))
  {
    ScoreIsUnrounded(a, assets, venues);
    ScoreIsUnrounded(b, assets, venues);
    BreadthRange(a);
    BreadthRange(b);
    hide TotalScore, VenueSet, Breadth;
  }

  /** An asset that is not selected yet is worth 0.0975. */
  lemma NewAssetMovesScore(o: Opportunity, without: set<string>, with: set<string>, venues: set<string>)
    requires o.asset !in without && o.asset in with
    ensures DiffersBy(TotalScore(o, without, venues), TotalScore(o, with, venues), 0.0975)
  {
    ScoreIsUnrounded(o, without, venues);
    ScoreIsUnrounded(o, with, venues);
    hide TotalScore, VenueSet, Breadth;
  }

  /** Each of the first two new venues is worth 0.0225, and any number of new venues at most 0.0525. */
  lemma NewVenuesMoveScore(o: Opportunity, assets: set<string>, some: set<string>, others: set<string>)
    ensures DiffersBy(TotalScore(o, assets, some), TotalScore(o, assets, others),
                      Min(0.0525, 0.0225 * NewVenues(o, some) as real) - Min(0.0525, 0.0225 * NewVenues(o, others) as real))
  {
    ScoreIsUnrounded(o, assets, some);
    ScoreIsUnrounded(o, assets, others);
    hide TotalScore, VenueSet, Breadth;
  }

  /** Without yield, confidence, legs and diversification the score is zero. */
  lemma NothingScoresZero(o: Opportunity, assets: set<string>, venues: set<string>)
    requires o.netYieldPct <= 0.0 && o.confidenceScore <= 0.0 && o.legs == [] && o.asset in assets
    ensures -0.00005 <= TotalScore(o, assets, venues) <= 0.00005
  {
    ScoreIsUnrounded(o, assets, venues);
    assert VenueSet(o) == {};
    hide TotalScore, VenueSet;
  }

  /**
   Of two candidates equal in everything but yield, the one that yields clearly more is never picked, and never
   rejected, after the other has been picked.
   */
  lemma HigherYieldComesFirst(opportunities: seq<Opportunity>, config: CarryConfig, a: Opportunity, b: Opportunity, k: nat)
    requires a == b.(netYieldPct := a.netYieldPct)
    requires Max(0.0, Min(20.0, a.netYieldPct)) - Max(0.0, Min(20.0, b.netYieldPct)) >= 0.005
    requires var so := SelectFrom(opportunities, Selection([], []), config); k < |so.selected| && so.selected[k] == b
    ensures var so := SelectFrom(opportunities, Selection([], []), config);
      && (forall j :: k < j < |so.selected| ==> so.selected[j] != a)
      && (forall r :: 0 <= r < |so.rejected| && so.rejected[r].opportunity == a ==> so.rejected[r].after <= k)
  {
    var so := SelectFrom(opportunities, Selection([], []), config);
    SelectionLaws(opportunities, config);
    YieldMovesScore(a, b, Assets(so.selected[..k]), Venues(so.selected[..k]));
    assert !BeatsAt(so.selected, k, a) by { hide TotalScore, Assets, Venues; }
    hide BeatsAt, SelectFrom;
  }

  // ---- Sizes ----

  lemma TwoDecimals(x: real)
    ensures Near(ToFixed(x, 100.0), x)
  {
  }

  /** To the nearest cent. */
  predicate Near(cents: real, x: real) {
    -0.005 <= cents - x <= 0.005
  }

  /** What the percentages of the model are. */
  lemma PercentagesAre(nav: real, amount: real)
    ensures PctOf(nav, amount) == nav * amount / 100.0
    ensures nav != 0.0 ==> ShareOf(amount, nav) == amount / nav * 100.0
  {
  }

  lemma GrossCapIs(nav: real, config: CarryConfig)
    ensures GrossCap(nav, config) == nav * config.maxPositionSizePct / 100.0 + 0.0000005 * nav + 0.005
  {
  }

  /** The share of NAV a position aims at, in percent: Kelly or the default, capped by the maximum and what is left. */
  function WantedPct(o: Opportunity, config: CarryConfig, remainingPct: real): real {
    Min(Min(Max(Kelly(o, config), config.defaultPositionSizePct), config.maxPositionSizePct), remainingPct)
  }

  function Kelly(o: Opportunity, config: CarryConfig): real {
    o.expectedAnnualYieldPct * o.confidenceScore * config.kellyCriterionFraction
  }

  lemma KellyIs(o: Opportunity, config: CarryConfig)
    ensures KellyPct(o.expectedAnnualYieldPct, o.confidenceScore, config) == Kelly(o, config)
  {
    Reordered(o.expectedAnnualYieldPct, o.confidenceScore, config.kellyCriterionFraction);
  }

  lemma Reordered(y: real, c: real, f: real)
    ensures y / 100.0 * c * f * 100.0 == y * c * f
  {
    var q := y / 100.0;
    assert y == q * 100.0;
    assert y * c == (q * c) * 100.0;
    assert y * c * f == (q * c * f) * 100.0;
  }

  /** The target size is that share of NAV to the nearest cent, and zero when nothing is left. */
  lemma TargetSizeIs(book: Book, o: Opportunity, nav: real, config: CarryConfig)
    requires nav > 0.0
    ensures var remainingPct := config.maxPositionSizePct - ToFixed(ShareOf(book.gross, nav), 10000.0);
      var target := TargetSize(book, o, nav, config);
      if remainingPct <= 0.0 then target == 0.0
      else Near(target, PctOf(nav, WantedPct(o, config, remainingPct)))
  {
    hide KellyPct, Kelly, ToFixed, ShareOf, PctOf, Near;
    KellyIs(o, config);
    var remainingPct := config.maxPositionSizePct - ToFixed(ShareOf(book.gross, nav), 10000.0);
    TwoDecimals(PctOf(nav, WantedPct(o, config, remainingPct)));
  }

  /** A slot is an equal part of the whole, at most the default size, to the nearest cent; without a slot it is zero. */
  lemma SlotSizeIs(nav: real, openPositions: int, config: CarryConfig)
    requires nav > 0.0
    ensures var slot, slots := ComputeMaxAllowedSize(nav, openPositions, config), config.maxConcurrentOpportunities - openPositions;
      if slots <= 0 then slot == 0.0
      else Near(slot, Min(PctOf(nav, config.maxPositionSizePct) / slots as real, PctOf(nav, config.defaultPositionSizePct)))
  {
    hide ToFixed, PctOf, Near;
    if openPositions < config.maxConcurrentOpportunities {
      var slots := (config.maxConcurrentOpportunities - openPositions) as real;
      TwoDecimals(Min(PctOf(nav, config.maxPositionSizePct) / slots, PctOf(nav, config.defaultPositionSizePct)));
    }
  }

  /** The room of a venue, spread over the legs at that venue, is what its cap leaves. */
  lemma VenueRoomIs(book: Book, o: Opportunity, venue: string, cap: real)
    requires venue in o.legs
    ensures LegCount(o.legs, venue) > 0
    ensures VenueRoom(book, o, venue, cap) * LegCount(o.legs, venue) as real
         == (cap - Exposure(book.venues, venue)) * |o.legs| as real
  {
    LegCountPositive(o.legs, venue);
    WeightPositive(o, venue);
    var room, legs, here := cap - Exposure(book.venues, venue), |o.legs| as real, LegCount(o.legs, venue) as real;
    QuotientTimes(room, here, legs);
    hide LegCount, Exposure;
  }

  lemma QuotientTimes(room: real, here: real, legs: real)
    requires here > 0.0 && legs > 0.0
    ensures here / legs > 0.0 && room / (here / legs) * here == room * legs
  {
    var w := here / legs;
    assert w * legs == here;
    assert w <= 0.0 ==> w * legs <= 0.0;
    var q := room / w;
    assert q * w == room;
    assert q * here == q * (w * legs) == (q * w) * legs;
  }

  /** A bound on the size of `o`: the target, the slot, the room of its asset, or the room of one of its venues. */
  ghost predicate IsBound(x: real, book: Book, o: Opportunity, nav: real, config: CarryConfig)
    requires nav != 0.0
  {
    || x == TargetSize(book, o, nav, config)
    || x == ComputeMaxAllowedSize(nav, book.openPositions, config)
    || x == PctOf(nav, config.maxAssetExposurePct) - Exposure(book.assets, o.asset)
    || exists v :: v in o.legs && x == VenueRoom(book, o, v, PctOf(nav, config.maxVenueExposurePct))
  }

  lemma {:induction false} LeastRoomIsOne(book: Book, o: Opportunity, venues: seq<string>, cap: real, start: real)
    requires venues != [] ==> o.legs != []
    ensures var least := LeastRoom(book, o, venues, cap, start);
      least == start || exists i :: 0 <= i < |venues| && least == VenueRoom(book, o, venues[i], cap)
  {
    hide VenueRoom;
    if venues != [] {
      LeastRoomIsOne(book, o, venues[..|venues| - 1], cap, start);
    }
  }

  /** The size before rounding is the least of its bounds. */
  lemma SizeIsLeastBound(book: Book, o: Opportunity, nav: real, config: CarryConfig)
    requires nav != 0.0
    ensures IsBound(PositionSize(book, o, nav, config), book, o, nav, config)
    ensures forall x :: IsBound(x, book, o, nav, config) ==> PositionSize(book, o, nav, config) <= x
  {
    hide PctOf;
    var venues, cap := DistinctVenues(o.legs), PctOf(nav, config.maxVenueExposurePct);
    var assetRoom := PctOf(nav, config.maxAssetExposurePct) - Exposure(book.assets, o.asset);
    var start := Min(Min(TargetSize(book, o, nav, config), ComputeMaxAllowedSize(nav, book.openPositions, config)), assetRoom);
    VenuesNeedLegs(o);
    LeastRoomIsOne(book, o, venues, cap, start);
    var size := PositionSize(book, o, nav, config);
    assert size == LeastRoom(book, o, venues, cap, start);
    hide TargetSize, ComputeMaxAllowedSize, VenueRoom, Exposure, PositionSize, DistinctVenues;
    forall v | v in o.legs
      ensures size <= VenueRoom(book, o, v, cap)
    {
      assert v in venues;
      var i :| 0 <= i < |venues| && venues[i] == v;
    }
    if size != start {
      var i :| 0 <= i < |venues| && size == VenueRoom(book, o, venues[i], cap);
      assert venues[i] in o.legs;
    }
  }

  /**
   What an opportunity is granted: nothing exactly when some bound leaves nothing; otherwise whole cents, within every
   bound, and less than a cent below one of them.
   */
  lemma GrantIsGreatest(book: Book, o: Opportunity, nav: real, config: CarryConfig)
    requires nav != 0.0
    ensures var granted := SizeOne(book, o, nav, config).1;
      && (granted == None <==> exists x :: IsBound(x, book, o, nav, config) && x <= 0.0)
      && (granted.Some? ==>
            && IsMultiple(granted.value, 100.0)
            && (forall x :: IsBound(x, book, o, nav, config) ==> granted.value <= x)
            && exists x :: IsBound(x, book, o, nav, config) && x < granted.value + 0.01)
  {
    SizeIsLeastBound(book, o, nav, config);
    var size := PositionSize(book, o, nav, config);
    hide IsBound, PositionSize, AddToVenues, DistinctVenues, Exposure, IsMultiple;
    if size > 0.0 {
      assert SizeOne(book, o, nav, config).1 == Some(RoundDown(size, 100.0));
      RoundDownIsMultiple(size, 100.0);
      hide RoundDown, SizeOne;
    }
  }

  // ---- Venues share a size ----

  function Shares(o: Opportunity, venues: seq<string>): real
    requires venues != [] ==> o.legs != []
  {
    if venues == [] then 0.0 else Shares(o, venues[..|venues| - 1]) + Weight(o, venues[|venues| - 1])
  }

  function LegsAt(legs: seq<string>, venues: seq<string>): nat {
    if venues == [] then 0 else LegsAt(legs, venues[..|venues| - 1]) + LegCount(legs, venues[|venues| - 1])
  }

  lemma {:induction false} OneMoreLeg(legs: seq<string>, leg: string, venues: seq<string>)
    requires forall i, j :: 0 <= i < j < |venues| ==> venues[i] != venues[j]
    ensures LegsAt(legs + [leg], venues) == LegsAt(legs, venues) + if leg in venues then 1 else 0
  {
    if venues != [] {
      var front, last := venues[..|venues| - 1], venues[|venues| - 1];
      OneMoreLeg(legs, leg, front);
      assert (legs + [leg])[..|legs|] == legs;
      assert venues == front + [last];
    }
  }

  /** Every leg is at exactly one of the distinct venues. */
  lemma {:induction false} LegsAreSomewhere(legs: seq<string>)
    ensures LegsAt(legs, DistinctVenues(legs)) == |legs|
  {
    if legs != [] {
      var front, leg := legs[..|legs| - 1], legs[|legs| - 1];
      LegsAreSomewhere(front);
      assert legs == front + [leg];
      var venues := DistinctVenues(front);
      OneMoreLeg(front, leg, DistinctVenues(legs));
      if leg !in venues {
        assert DistinctVenues(legs)[..|venues|] == venues;
        LegCountPositive(front, leg);
        assert LegsAt(front, DistinctVenues(legs)) == LegsAt(front, venues) + LegCount(front, leg);
      }
    }
  }

  lemma WeightTimesLegs(o: Opportunity, venue: string)
    requires o.legs != []
    ensures Worth(Weight(o, venue), |o.legs| as real) == LegCount(o.legs, venue) as real
  {
  }

  lemma {:induction false} SharesTimesLegs(o: Opportunity, venues: seq<string>)
    requires o.legs != []
    ensures Worth(Shares(o, venues), |o.legs| as real) == LegsAt(o.legs, venues) as real
  {
    hide Worth, Weight;
    var legs := |o.legs| as real;
    if venues != [] {
      var front, last := venues[..|venues| - 1], venues[|venues| - 1];
      SharesTimesLegs(o, front);
      WeightTimesLegs(o, last);
      WorthSplits(Shares(o, front), Weight(o, last), legs);
    } else {
      WorthSplits(0.0, 0.0, legs);
    }
  }

  lemma OneOfItself(x: real, whole: real)
    requires whole != 0.0 && Worth(x, whole) == whole
    ensures x == 1.0
  {
    assert (x - 1.0) * whole == 0.0;
  }

  /** The weights of the venues of an opportunity add up to one, so a size is spread over them without loss. */
  lemma WeightsAddUp(o: Opportunity)
    requires o.legs != []
    ensures Shares(o, DistinctVenues(o.legs)) == 1.0
  {
    hide Worth, Shares, LegsAt, DistinctVenues;
    LegsAreSomewhere(o.legs);
    SharesTimesLegs(o, DistinctVenues(o.legs));
    OneOfItself(Shares(o, DistinctVenues(o.legs)), |o.legs| as real);
  }
}
