/** The optimizer of the source: a greedy selection loop over running counters, then a sizing loop over running exposures. */
module PortfolioOptimizer {
  import opened Basics
  import opened PortfolioModel
  import opened PortfolioLaws
  import StableSort
  import Sums

  datatype Allocation = Allocation(opportunity: Opportunity, positionSizeUsd: real)
  datatype Refusal = NavIsZero | Unselected(rejection: Rejection) | NoCapacity

  datatype RefusedOpportunity = RefusedOpportunity(opportunity: Opportunity, refusal: Refusal)
  datatype OptimizationResult = OptimizationResult(selected: seq<Allocation>, rejected: seq<RefusedOpportunity>)

  function CountIn(counts: map<string, nat>, k: string): nat {
    if k in counts then counts[k] else 0
  }

  lemma VenuesOf(o: Opportunity)
    ensures forall v :: v in VenueSet(o) <==> v in DistinctVenues(o.legs)
  {
    forall v
      ensures v in VenueSet(o) <==> v in o.legs
    {
    }
  }

  /** The counters mirror what has been selected. */
  ghost predicate Mirrors(selected: seq<Opportunity>, assetCounts: map<string, nat>, venueCounts: map<string, nat>) {
    && (forall a: string :: CountIn(assetCounts, a) == AssetCount(selected, a))
    && (forall v: string :: CountIn(venueCounts, v) == VenueCount(selected, v))
  }

  method CanSelectOpportunity(o: Opportunity, assetCounts: map<string, nat>, venueCounts: map<string, nat>,
                              config: CarryConfig, ghost selected: seq<Opportunity>) returns (ok: bool)
    requires Mirrors(selected, assetCounts, venueCounts)
    ensures ok <==> !LimitReached(o, selected, config)
  {
    VenuesOf(o);
    hide VenueSet, AssetCount, VenueCount;
    if CountIn(assetCounts, o.asset) >= config.maxOpportunitiesPerAsset {
      return false;
    }
    var venues := DistinctVenues(o.legs);
    for i := 0 to |venues|
      invariant forall j :: 0 <= j < i ==> VenueCount(selected, venues[j]) < config.maxOpportunitiesPerVenue
    {
      if CountIn(venueCounts, venues[i]) >= config.maxOpportunitiesPerVenue {
        assert venues[i] in VenueSet(o);
        return false;
      }
    }
    return true;
  }

  method CountVenues(venueCounts: map<string, nat>, o: Opportunity) returns (r: map<string, nat>)
    ensures forall v: string :: CountIn(r, v) == (CountIn(venueCounts, v) + if v in VenueSet(o) then 1 else 0)
  {
    VenuesOf(o);
    hide VenueSet;
    r := venueCounts;
    var venues := DistinctVenues(o.legs);
    for i := 0 to |venues|
      invariant forall v: string :: CountIn(r, v) == (CountIn(venueCounts, v) + if v in venues[..i] then 1 else 0)
    {
      assert venues[i] !in venues[..i];
      assert forall v :: v in venues[..i + 1] <==> v in venues[..i] || v == venues[i];
      r := r[venues[i] := CountIn(r, venues[i]) + 1];
    }
    assert venues[..|venues|] == venues;
  }

  lemma SetsExtend(selected: seq<Opportunity>, o: Opportunity)
    ensures Assets(selected + [o]) == Assets(selected) + {o.asset}
    ensures Venues(selected + [o]) == Venues(selected) + VenueSet(o)
  {
    assert (selected + [o])[..|selected|] == selected;
    forall a | a in Assets(selected) + {o.asset}
      ensures a in Assets(selected + [o])
    {
      if a in Assets(selected) {
        var i :| 0 <= i < |selected| && selected[i].asset == a;
        assert (selected + [o])[i].asset == a;
      } else {
        assert (selected + [o])[|selected|].asset == a;
      }
    }
  }

  method SelectOpportunityCandidates(opportunities: seq<Opportunity>, config: CarryConfig) returns (result: Selection)
    ensures result == SelectFrom(opportunities, Selection([], []), config)
  {
    hide ByScore, LimitReached, AssetCount, VenueCount, VenueSet, Assets, Venues, ScoreAfter;
    var remaining := opportunities;
    var selected: seq<Opportunity>, rejected: seq<Rejection> := [], [];
    var assetCounts: map<string, nat>, venueCounts: map<string, nat> := map[], map[];
    var selectedAssets: set<string>, selectedVenues: set<string> := {}, {};
    NothingSelected();
    while |remaining| > 0 && |selected| < config.maxConcurrentOpportunities
      invariant SelectFrom(opportunities, Selection([], []), config)
             == SelectFrom(remaining, Selection(selected, rejected), config)
      invariant Mirrors(selected, assetCounts, venueCounts)
      invariant selectedAssets == Assets(selected) && selectedVenues == Venues(selected)
      decreases |remaining|
    {
      remaining := SortRemaining(remaining, selectedAssets, selectedVenues, selected);
      var next := remaining[0];
      remaining := remaining[1..];
      var ok := CanSelectOpportunity(next, assetCounts, venueCounts, config, selected);
      if !ok {
        rejected := rejected + [Rejection(next, Limit, |selected|)];
      } else {
        SetsExtend(selected, next);
        CountsExtend(selected, next);
        selected := selected + [next];
        selectedAssets := selectedAssets + {next.asset};
        assetCounts := assetCounts[next.asset := CountIn(assetCounts, next.asset) + 1];
        selectedVenues := selectedVenues + VenueSet(next);
        venueCounts := CountVenues(venueCounts, next);
      }
    }
    rejected := rejected + RejectAll(remaining, |selected|);
    result := Selection(selected, rejected);
  }

  lemma NothingSelected()
    ensures Mirrors([], map[], map[])
    ensures Assets([]) == {} && Venues([]) == {}
  {
  }

  /** `remaining.sort` with the scores of the moment, highest first. */
  method SortRemaining(remaining: seq<Opportunity>, selectedAssets: set<string>, selectedVenues: set<string>,
                       ghost selected: seq<Opportunity>) returns (sorted: seq<Opportunity>)
    requires selectedAssets == Assets(selected) && selectedVenues == Venues(selected)
    ensures sorted == ByScore(remaining, selected)
  {
    hide TotalScore;
    var key := (o: Opportunity) => -TotalScore(o, selectedAssets, selectedVenues);
    sorted := StableSort.SortBy(remaining, key);
    SortByEqualKeys(remaining, key, (o: Opportunity) => -ScoreAfter(o, selected));
  }

  lemma {:induction false} InsertByEqualKeys<T>(s: seq<T>, x: T, f: T -> real, g: T -> real)
    requires forall y: T :: f(y) == g(y)
    ensures StableSort.Insert(s, x, f) == StableSort.Insert(s, x, g)
  {
    if s == [] || f(s[|s| - 1]) <= f(x) {
    } else {
      InsertByEqualKeys(s[..|s| - 1], x, f, g);
    }
  }

  lemma {:induction false} SortByEqualKeys<T>(s: seq<T>, f: T -> real, g: T -> real)
    requires forall y: T :: f(y) == g(y)
    ensures StableSort.SortBy(s, f) == StableSort.SortBy(s, g)
  {
    if s != [] {
      SortByEqualKeys(s[..|s| - 1], f, g);
      InsertByEqualKeys(StableSort.SortBy(s[..|s| - 1], f), s[|s| - 1], f, g);
    }
  }

  /** Share of the legs each venue carries. */
  method BuildVenueWeights(o: Opportunity) returns (weights: map<string, real>)
    ensures forall v :: v in weights <==> v in o.legs
    ensures forall v :: v in weights ==> o.legs != [] && weights[v] == Weight(o, v)
  {
    var counts: map<string, nat> := map[];
    for i := 0 to |o.legs|
      invariant forall v :: v in counts <==> v in o.legs[..i]
      invariant forall v :: CountIn(counts, v) == LegCount(o.legs[..i], v)
    {
      assert o.legs[..i + 1] == o.legs[..i] + [o.legs[i]];
      counts := counts[o.legs[i] := CountIn(counts, o.legs[i]) + 1];
    }
    assert o.legs[..|o.legs|] == o.legs;
    weights := map v | v in counts :: counts[v] as real / |o.legs| as real;
  }

  /** The smallest venue room, and the exposures after granting a size: the two loops over the weight map. */
  method LeastVenueRoom(book: Book, o: Opportunity, weights: map<string, real>, venueCap: real, start: real) returns (least: real)
    requires forall v :: v in weights <==> v in o.legs
    requires forall v :: v in weights ==> o.legs != [] && weights[v] == Weight(o, v)
    ensures least == LeastRoom(book, o, DistinctVenues(o.legs), venueCap, start)
  {
    hide Weight, DistinctVenues;
    VenuesNeedLegs(o);
    least := start;
    var venues := DistinctVenues(o.legs);
    for i := 0 to |venues|
      invariant least == LeastRoom(book, o, venues[..i], venueCap, start)
    {
      assert venues[..i + 1][..i] == venues[..i];
      var remainingVenueCapacity := venueCap - Exposure(book.venues, venues[i]);
      var weight := weights[venues[i]];
      least := Min(least, if weight <= 0.0 then remainingVenueCapacity else remainingVenueCapacity / weight);
    }
    assert venues[..|venues|] == venues;
  }

  method AddVenueExposure(venueExposure: map<string, real>, o: Opportunity, weights: map<string, real>, size: real)
    returns (r: map<string, real>)
    requires forall v :: v in weights <==> v in o.legs
    requires forall v :: v in weights ==> o.legs != [] && weights[v] == Weight(o, v)
    ensures r == AddToVenues(venueExposure, o, DistinctVenues(o.legs), size)
  {
    hide Weight, DistinctVenues, Worth;
    VenuesNeedLegs(o);
    r := venueExposure;
    var venues := DistinctVenues(o.legs);
    for i := 0 to |venues|
      invariant r == AddToVenues(venueExposure, o, venues[..i], size)
    {
      assert venues[..i + 1][..i] == venues[..i];
      r := r[venues[i] := Exposure(r, venues[i]) + Worth(size, weights[venues[i]])];
    }
    assert venues[..|venues|] == venues;
  }

  /** One round of the sizing loop. */
  method SizeOpportunity(book: Book, o: Opportunity, nav: real, config: CarryConfig) returns (after: Book, granted: Option<real>)
    requires nav != 0.0
    ensures (after, granted) == SizeOne(book, o, nav, config)
  {
    hide ToFixed, RoundDown, ComputePositionSize, ComputeMaxAllowedSize, LeastRoom, AddToVenues, PctOf, ShareOf, DistinctVenues;
    var currentExposurePct := ToFixed(ShareOf(book.gross, nav), 10000.0);
    var targetSize := ComputePositionSize(nav, o.expectedAnnualYieldPct, o.confidenceScore, config, currentExposurePct);
    var maxAllowedSize := ComputeMaxAllowedSize(nav, book.openPositions, config);
    var assetRemaining := PctOf(nav, config.maxAssetExposurePct) - Exposure(book.assets, o.asset);
    var weights := BuildVenueWeights(o);
    var positionSize := LeastVenueRoom(book, o, weights, PctOf(nav, config.maxVenueExposurePct),
                                       Min(Min(targetSize, maxAllowedSize), assetRemaining));
    if positionSize <= 0.0 {
      return book, None;
    }
    var normalized := RoundDown(positionSize, 100.0);
    var venues := AddVenueExposure(book.venues, o, weights, normalized);
    return Book(book.gross + normalized, book.openPositions + 1,
                book.assets[o.asset := Exposure(book.assets, o.asset) + normalized], venues),
           Some(normalized);
  }

  function Allocated(allocations: seq<Allocation>): (r: seq<Opportunity>)
    ensures |r| == |allocations|
  {
    seq(|allocations|, i requires 0 <= i < |allocations| => allocations[i].opportunity)
  }

  function Refused(refused: seq<RefusedOpportunity>): (r: seq<Opportunity>)
    ensures |r| == |refused|
  {
    seq(|refused|, i requires 0 <= i < |refused| => refused[i].opportunity)
  }

  function Unselect(rejections: seq<Rejection>): (r: seq<RefusedOpportunity>)
    ensures |r| == |rejections|
  {
    seq(|rejections|, i requires 0 <= i < |rejections| => RefusedOpportunity(rejections[i].opportunity, Unselected(rejections[i])))
  }

  function RefuseAll(opportunities: seq<Opportunity>): (r: seq<RefusedOpportunity>)
    ensures |r| == |opportunities|
  {
    seq(|opportunities|, i requires 0 <= i < |opportunities| => RefusedOpportunity(opportunities[i], NavIsZero))
  }

  /** What sizing does with the opportunities, in order. */
  function Sized(book: Book, selected: seq<Opportunity>, nav: real, config: CarryConfig): (seq<Allocation>, seq<RefusedOpportunity>)
    requires nav != 0.0
  {
    if selected == [] then ([], [])
    else
      var (allocations, refused) := Sized(book, selected[..|selected| - 1], nav, config);
      var o := selected[|selected| - 1];
      match SizeOne(SizeAll(book, selected[..|selected| - 1], nav, config), o, nav, config).1
      case Some(size) => (allocations + [Allocation(o, size)], refused)
      case None => (allocations, refused + [RefusedOpportunity(o, NoCapacity)])
  }

  lemma AllocatedAppend(a: seq<Allocation>, x: Allocation)
    ensures Allocated(a + [x]) == Allocated(a) + [x.opportunity]
  {
  }

  lemma RefusedAppend(a: seq<RefusedOpportunity>, b: seq<RefusedOpportunity>)
    ensures Refused(a + b) == Refused(a) + Refused(b)
  {
  }

  lemma RefusedSingle(x: RefusedOpportunity)
    ensures Refused([x]) == [x.opportunity]
  {
  }

  lemma {:induction false} SizingPartitions(book: Book, selected: seq<Opportunity>, nav: real, config: CarryConfig)
    requires nav != 0.0
    ensures var (allocations, refused) := Sized(book, selected, nav, config);
      multiset(Allocated(allocations)) + multiset(Refused(refused)) == multiset(selected)
  {
    hide SizeOne, Allocated, Refused;
    if selected != [] {
      var front, o := selected[..|selected| - 1], selected[|selected| - 1];
      SizingPartitions(book, front, nav, config);
      var (allocations, refused) := Sized(book, front, nav, config);
      assert selected == front + [o];
      match SizeOne(SizeAll(book, front, nav, config), o, nav, config).1 {
        case Some(size) => AllocatedAppend(allocations, Allocation(o, size));
        case None =>
          RefusedAppend(refused, [RefusedOpportunity(o, NoCapacity)]);
          RefusedSingle(RefusedOpportunity(o, NoCapacity));
      }
    } else {
      assert Allocated([]) == [] && Refused([]) == [];
    }
  }

  lemma UnselectKeeps(rejections: seq<Rejection>)
    ensures Refused(Unselect(rejections)) == Rejected(rejections)
  {
  }

  lemma RefuseAllKeeps(opportunities: seq<Opportunity>)
    ensures Refused(RefuseAll(opportunities)) == opportunities
    ensures Allocated([]) == []
  {
    assert Refused(RefuseAll(opportunities)) == opportunities;
    assert |Allocated([])| == 0;
  }

  lemma WholePartition(opportunities: seq<Opportunity>, book: Book, nav: real, config: CarryConfig)
    requires nav != 0.0
    ensures var so := SelectFrom(opportunities, Selection([], []), config);
      var (allocations, refused) := Sized(book, so.selected, nav, config);
      multiset(Allocated(allocations)) + multiset(Refused(Unselect(so.rejected) + refused)) == multiset(opportunities)
  {
    hide Sized, SelectFrom, Refused, Allocated, Rejected;
    var start := Selection([], []);
    var so := SelectFrom(opportunities, start, config);
    SelectionPartitions(opportunities, start, config);
    NothingRejected();
    SizingPartitions(book, so.selected, nav, config);
    var (allocations, refused) := Sized(book, so.selected, nav, config);
    UnselectKeeps(so.rejected);
    RefusedAppend(Unselect(so.rejected), refused);
    assert multiset(Refused(Unselect(so.rejected) + refused)) == multiset(Rejected(so.rejected)) + multiset(Refused(refused));
    assert multiset(so.selected) + multiset(Rejected(so.rejected)) == multiset(opportunities);
    assert multiset(Allocated(allocations)) + multiset(Refused(Unselect(so.rejected) + refused))
        == multiset(so.selected) + multiset(Rejected(so.rejected));
  }

  lemma NothingRejected()
    ensures Rejected([]) == []
  {
  }

  // ---- What the allocations add up to ----

  ghost function SizeOf(): Allocation -> real {
    (a: Allocation) => a.positionSizeUsd
  }

  ghost function SizeIn(asset: string): Allocation -> real {
    (a: Allocation) => if a.opportunity.asset == asset then a.positionSizeUsd else 0.0
  }

  /** The part of an allocation that its legs at one venue carry. */
  ghost function SizeAt(venue: string): Allocation -> real {
    (a: Allocation) => if venue in a.opportunity.legs then Worth(a.positionSizeUsd, Weight(a.opportunity, venue)) else 0.0
  }

  /** One sizing step adds what it grants to the book, and nothing else. */
  lemma StepAddsAllocation(book: Book, o: Opportunity, nav: real, config: CarryConfig, asset: string, venue: string)
    requires nav != 0.0
    ensures var (after, granted) := SizeOne(book, o, nav, config);
      if granted.None? then after == book
      else
        var a := Allocation(o, granted.value);
        && after.gross == book.gross + SizeOf()(a)
        && after.openPositions == book.openPositions + 1
        && Exposure(after.assets, asset) == Exposure(book.assets, asset) + SizeIn(asset)(a)
        && Exposure(after.venues, venue) == Exposure(book.venues, venue) + SizeAt(venue)(a)
  {
    hide PositionSize, RoundDown, AddToVenues, Worth, Weight, DistinctVenues;
    var (after, granted) := SizeOne(book, o, nav, config);
    if granted.Some? {
      VenuesNeedLegs(o);
      VenuesAddOnce(book.venues, o, DistinctVenues(o.legs), granted.value, venue);
    }
  }

  /** The book at the end of a sizing run is the initial one plus the allocations. */
  ghost predicate Accounts(book: Book, after: Book, allocations: seq<Allocation>, asset: string, venue: string) {
    && after.gross == book.gross + Sums.Sum(allocations, SizeOf())
    && after.openPositions == book.openPositions + |allocations|
    && Exposure(after.assets, asset) == Exposure(book.assets, asset) + Sums.Sum(allocations, SizeIn(asset))
    && Exposure(after.venues, venue) == Exposure(book.venues, venue) + Sums.Sum(allocations, SizeAt(venue))
  }

  lemma NothingAllocated(book: Book, asset: string, venue: string)
    ensures Accounts(book, book, [], asset, venue)
  {
  }

  lemma AllocateOne(book: Book, before: Book, after: Book, allocations: seq<Allocation>, a: Allocation, asset: string, venue: string)
    requires Accounts(book, before, allocations, asset, venue)
    requires after.gross == before.gross + SizeOf()(a) && after.openPositions == before.openPositions + 1
    requires Exposure(after.assets, asset) == Exposure(before.assets, asset) + SizeIn(asset)(a)
    requires Exposure(after.venues, venue) == Exposure(before.venues, venue) + SizeAt(venue)(a)
    ensures Accounts(book, after, allocations + [a], asset, venue)
  {
    hide Sums.Sum, SizeOf, SizeIn, SizeAt, Exposure;
    Sums.SumAppend(allocations, [a], SizeOf());
    Sums.SumAppend(allocations, [a], SizeIn(asset));
    Sums.SumAppend(allocations, [a], SizeAt(venue));
    Sums.SumSingle(a, SizeOf());
    Sums.SumSingle(a, SizeIn(asset));
    Sums.SumSingle(a, SizeAt(venue));
  }

  lemma {:induction false} BookIsAllocations(book: Book, selected: seq<Opportunity>, nav: real, config: CarryConfig,
                                             asset: string, venue: string)
    requires nav != 0.0
    ensures Accounts(book, SizeAll(book, selected, nav, config), Sized(book, selected, nav, config).0, asset, venue)
  {
    hide SizeOne, Accounts, SizeOf, SizeIn, SizeAt, Exposure;
    if selected == [] {
      NothingAllocated(book, asset, venue);
    } else {
      var front, o := selected[..|selected| - 1], selected[|selected| - 1];
      BookIsAllocations(book, front, nav, config, asset, venue);
      var before := SizeAll(book, front, nav, config);
      StepAddsAllocation(before, o, nav, config, asset, venue);
      match SizeOne(before, o, nav, config).1 {
        case None =>
        case Some(size) =>
          AllocateOne(book, before, SizeOne(before, o, nav, config).0, Sized(book, front, nav, config).0,
                      Allocation(o, size), asset, venue);
      }
    }
  }

  /** The caps, stated on the returned sizes and the exposures of the caller. */
  ghost predicate AllocationsRespectCaps(book: Book, allocations: seq<Allocation>, nav: real, config: CarryConfig) {
    && book.gross + Sums.Sum(allocations, SizeOf()) <= Max(book.gross, GrossCap(nav, config))
    && (allocations == [] || book.openPositions + |allocations| <= config.maxConcurrentOpportunities)
    && (forall asset: string :: Exposure(book.assets, asset) + Sums.Sum(allocations, SizeIn(asset))
          <= Max(Exposure(book.assets, asset), PctOf(nav, config.maxAssetExposurePct)))
    && (forall venue: string :: Exposure(book.venues, venue) + Sums.Sum(allocations, SizeAt(venue))
          <= Max(Exposure(book.venues, venue), PctOf(nav, config.maxVenueExposurePct)))
  }

  lemma SizedWithinCaps(book: Book, selected: seq<Opportunity>, nav: real, config: CarryConfig)
    requires nav > 0.0
    ensures AllocationsRespectCaps(book, Sized(book, selected, nav, config).0, nav, config)
  {
    hide SizeAll, Sized, Sums.Sum, SizeOf, SizeIn, SizeAt, Exposure, PctOf, GrossCap;
    SizingRespectsCaps(book, selected, nav, config);
    BookIsAllocations(book, selected, nav, config, "", "");
    forall asset: string
      ensures Exposure(book.assets, asset) + Sums.Sum(Sized(book, selected, nav, config).0, SizeIn(asset))
           <= Max(Exposure(book.assets, asset), PctOf(nav, config.maxAssetExposurePct))
    {
      BookIsAllocations(book, selected, nav, config, asset, "");
    }
    forall venue: string
      ensures Exposure(book.venues, venue) + Sums.Sum(Sized(book, selected, nav, config).0, SizeAt(venue))
           <= Max(Exposure(book.venues, venue), PctOf(nav, config.maxVenueExposurePct))
    {
      BookIsAllocations(book, selected, nav, config, "", venue);
    }
  }

  /** Without a positive NAV nothing is allocated, so nothing is added to any exposure. */
  lemma NothingIsWithinCaps(book: Book, nav: real, config: CarryConfig)
    ensures AllocationsRespectCaps(book, [], nav, config)
  {
  }

  /**
   The whole optimizer. Its input is partitioned into allocations and refusals; the allocations are the selected
   opportunities at the sizes of the sizing loop, and together with the current exposures they respect every cap.
   */
  method OptimizeCarryPortfolio(opportunities: seq<Opportunity>, nav: real, book: Book, config: CarryConfig)
    returns (result: OptimizationResult)
    ensures nav <= 0.0 ==> result == OptimizationResult([], RefuseAll(opportunities))
    ensures nav > 0.0 ==>
      var so := SelectFrom(opportunities, Selection([], []), config);
      && result.selected == Sized(book, so.selected, nav, config).0
      && result.rejected == Unselect(so.rejected) + Sized(book, so.selected, nav, config).1
    ensures multiset(Allocated(result.selected)) + multiset(Refused(result.rejected)) == multiset(opportunities)
    ensures AllocationsRespectCaps(book, result.selected, nav, config)
  {
    if nav <= 0.0 {
      RefuseAllKeeps(opportunities);
      NothingIsWithinCaps(book, nav, config);
      return OptimizationResult([], RefuseAll(opportunities));
    }
    hide SelectFrom, SizeOne, Allocated, Refused, AllocationsRespectCaps;
    var selection := SelectOpportunityCandidates(opportunities, config);
    var chosen := selection.selected;
    var selected, refused := [], [];
    var planned := book;
    for i := 0 to |chosen|
      invariant planned == SizeAll(book, chosen[..i], nav, config)
      invariant (selected, refused) == Sized(book, chosen[..i], nav, config)
    {
      assert chosen[..i + 1][..i] == chosen[..i];
      var granted;
      planned, granted := SizeOpportunity(planned, chosen[i], nav, config);
      if granted.None? {
        refused := refused + [RefusedOpportunity(chosen[i], NoCapacity)];
      } else {
        selected := selected + [Allocation(chosen[i], granted.value)];
      }
    }
    assert chosen[..|chosen|] == chosen;
    WholePartition(opportunities, book, nav, config);
    SizedWithinCaps(book, chosen, nav, config);
    result := OptimizationResult(selected, Unselect(selection.rejected) + refused);
  }
}
