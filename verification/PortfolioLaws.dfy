/** What greedy selection and capped sizing guarantee, for every input. */
module PortfolioLaws {
  import opened Basics
  import opened PortfolioModel
  import StableSort

  // ---- Selection ----

  function Rejected(rejections: seq<Rejection>): (r: seq<Opportunity>)
    ensures |r| == |rejections|
  {
    seq(|rejections|, i requires 0 <= i < |rejections| => rejections[i].opportunity)
  }

  lemma RejectedAppend(a: seq<Rejection>, b: seq<Rejection>)
    ensures Rejected(a + b) == Rejected(a) + Rejected(b)
  {
  }

  /** No element scores higher than the first. */
  ghost predicate BestFirst(sorted: seq<Opportunity>, selected: seq<Opportunity>) {
    forall i :: 0 < i < |sorted| ==> ScoreAfter(sorted[0], selected) >= ScoreAfter(sorted[i], selected)
  }

  lemma ByScoreFacts(remaining: seq<Opportunity>, selected: seq<Opportunity>)
    ensures var sorted := ByScore(remaining, selected);
      && multiset(sorted) == multiset(remaining)
      && BestFirst(sorted, selected)
  {
    hide ScoreAfter;
    var key := (o: Opportunity) => -ScoreAfter(o, selected);
    StableSort.SortByCorrect(remaining, key);
    var sorted := ByScore(remaining, selected);
    forall i | 0 < i < |sorted|
      ensures ScoreAfter(sorted[0], selected) >= ScoreAfter(sorted[i], selected)
    {
      assert key(sorted[0]) <= key(sorted[i]);
    }
  }

  lemma HeadAndTail(s: seq<Opportunity>)
    requires s != []
    ensures multiset(s) == multiset{s[0]} + multiset(s[1..])
  {
    assert s == [s[0]] + s[1..];
  }

  lemma RejectAllRejects(remaining: seq<Opportunity>, after: nat)
    ensures Rejected(RejectAll(remaining, after)) == remaining
  {
  }

  /** Every opportunity is selected or rejected, exactly once. */
  lemma {:induction false} SelectionPartitions(remaining: seq<Opportunity>, so: Selection, config: CarryConfig)
    ensures var end := SelectFrom(remaining, so, config);
      multiset(end.selected) + multiset(Rejected(end.rejected))
      == multiset(remaining) + multiset(so.selected) + multiset(Rejected(so.rejected))
    decreases |remaining|
  {
    hide ByScore, LimitReached, Rejected;
    if remaining == [] || |so.selected| >= config.maxConcurrentOpportunities {
      RejectedAppend(so.rejected, RejectAll(remaining, |so.selected|));
      RejectAllRejects(remaining, |so.selected|);
    } else {
      var sorted := ByScore(remaining, so.selected);
      ByScoreFacts(remaining, so.selected);
      HeadAndTail(sorted);
      if LimitReached(sorted[0], so.selected, config) {
        var rejection := Rejection(sorted[0], Limit, |so.selected|);
        RejectedAppend(so.rejected, [rejection]);
        RejectedSingle(rejection);
        SelectionPartitions(sorted[1..], so.(rejected := so.rejected + [rejection]), config);
      } else {
        SelectionPartitions(sorted[1..], so.(selected := so.selected + [sorted[0]]), config);
      }
    }
  }

  lemma RejectedSingle(r: Rejection)
    ensures Rejected([r]) == [r.opportunity]
  {
  }

  ghost predicate WithinLimits(selected: seq<Opportunity>, config: CarryConfig) {
    && (selected != [] ==> |selected| <= config.maxConcurrentOpportunities)
    && (forall a: string :: AssetCount(selected, a) > 0 ==> AssetCount(selected, a) <= config.maxOpportunitiesPerAsset)
    && (forall v: string :: VenueCount(selected, v) > 0 ==> VenueCount(selected, v) <= config.maxOpportunitiesPerVenue)
  }

  lemma CountsExtend(selected: seq<Opportunity>, o: Opportunity)
    ensures forall a: string :: AssetCount(selected + [o], a) == (AssetCount(selected, a) + if o.asset == a then 1 else 0)
    ensures forall v: string :: VenueCount(selected + [o], v) == (VenueCount(selected, v) + if v in VenueSet(o) then 1 else 0)
  {
    assert (selected + [o])[..|selected|] == selected;
  }

  /** The selected count and the counts per asset and per venue never exceed their limits. */
  lemma {:induction false} SelectionWithinLimits(remaining: seq<Opportunity>, so: Selection, config: CarryConfig)
    requires WithinLimits(so.selected, config)
    ensures WithinLimits(SelectFrom(remaining, so, config).selected, config)
    decreases |remaining|
  {
    hide ByScore, AssetCount, VenueCount, VenueSet;
    if remaining == [] || |so.selected| >= config.maxConcurrentOpportunities {
    } else {
      var sorted := ByScore(remaining, so.selected);
      if LimitReached(sorted[0], so.selected, config) {
        SelectionWithinLimits(sorted[1..], so.(rejected := so.rejected + [Rejection(sorted[0], Limit, |so.selected|)]), config);
      } else {
        CountsExtend(so.selected, sorted[0]);
        SelectionWithinLimits(sorted[1..], so.(selected := so.selected + [sorted[0]]), config);
      }
    }
  }

  /** Pick number `k` scores at least as high as `o` did when it was made. */
  predicate BeatsAt(selected: seq<Opportunity>, k: nat, o: Opportunity)
    requires k < |selected|
  {
    ScoreAfter(selected[k], selected[..k]) >= ScoreAfter(o, selected[..k])
  }

  /** Every pick beats what was picked later and what was rejected later. */
  ghost predicate GreedyPicks(so: Selection) {
    && (forall k, j :: 0 <= k < j < |so.selected| ==> BeatsAt(so.selected, k, so.selected[j]))
    && (forall k, r :: 0 <= k < |so.selected| && 0 <= r < |so.rejected| && so.rejected[r].after > k
          ==> BeatsAt(so.selected, k, so.rejected[r].opportunity))
  }

  /** Every pick so far beats what is still waiting. */
  ghost predicate BeatsWaiting(selected: seq<Opportunity>, waiting: seq<Opportunity>) {
    forall k, i :: 0 <= k < |selected| && 0 <= i < |waiting| ==> BeatsAt(selected, k, waiting[i])
  }

  /** Rejections for a limit were justified when made, and stay justified. */
  ghost predicate JustifiedLimits(so: Selection, config: CarryConfig) {
    forall r :: 0 <= r < |so.rejected| && so.rejected[r].reason == Limit ==>
      so.rejected[r].after <= |so.selected|
      && Full(so.rejected[r].opportunity, so.selected[..so.rejected[r].after], config)
  }

  /** As many opportunities as allowed have been selected of the same asset, or with a leg at one of the same venues. */
  ghost predicate Full(o: Opportunity, selected: seq<Opportunity>, config: CarryConfig) {
    || AssetCount(selected, o.asset) >= config.maxOpportunitiesPerAsset
    || exists i :: 0 <= i < |o.legs| && VenueCount(selected, o.legs[i]) >= config.maxOpportunitiesPerVenue
  }

  lemma LimitReachedIff(o: Opportunity, selected: seq<Opportunity>, config: CarryConfig)
    ensures LimitReached(o, selected, config) <==> Full(o, selected, config)
  {
    hide AssetCount, VenueCount;
    if v :| v in VenueSet(o) && VenueCount(selected, v) >= config.maxOpportunitiesPerVenue {
      var i :| 0 <= i < |o.legs| && o.legs[i] == v;
    }
    if i :| 0 <= i < |o.legs| && VenueCount(selected, o.legs[i]) >= config.maxOpportunitiesPerVenue {
      assert o.legs[i] in VenueSet(o);
    }
  }

  /** An opportunity is rejected for an exhausted budget only when the selection is full. */
  ghost predicate JustifiedExhaustion(so: Selection, config: CarryConfig) {
    forall r :: 0 <= r < |so.rejected| && so.rejected[r].reason == BudgetExhausted ==>
      so.rejected[r].after == |so.selected| && |so.selected| >= config.maxConcurrentOpportunities
  }

  lemma ExhaustedAtTheEnd(so: Selection, remaining: seq<Opportunity>, config: CarryConfig)
    requires forall r :: 0 <= r < |so.rejected| ==> so.rejected[r].reason == Limit
    requires remaining == [] || |so.selected| >= config.maxConcurrentOpportunities
    ensures JustifiedExhaustion(so.(rejected := so.rejected + RejectAll(remaining, |so.selected|)), config)
  {
  }

  lemma BeatsPermuted(selected: seq<Opportunity>, waiting: seq<Opportunity>, sorted: seq<Opportunity>)
    requires BeatsWaiting(selected, waiting) && multiset(sorted) == multiset(waiting)
    ensures BeatsWaiting(selected, sorted)
  {
    hide BeatsAt;
    forall k, i | 0 <= k < |selected| && 0 <= i < |sorted|
      ensures BeatsAt(selected, k, sorted[i])
    {
      assert sorted[i] in multiset(waiting);
      var j :| 0 <= j < |waiting| && waiting[j] == sorted[i];
    }
  }

  lemma BeatsExtended(selected: seq<Opportunity>, o: Opportunity, k: nat, other: Opportunity)
    requires k < |selected|
    ensures BeatsAt(selected + [o], k, other) == BeatsAt(selected, k, other)
  {
    assert (selected + [o])[..k] == selected[..k];
  }

  lemma PickKeepsGreedy(so: Selection, sorted: seq<Opportunity>)
    requires sorted != [] && GreedyPicks(so) && BeatsWaiting(so.selected, sorted)
    requires forall r :: 0 <= r < |so.rejected| ==> so.rejected[r].after <= |so.selected|
    requires BestFirst(sorted, so.selected)
    ensures var picked := so.(selected := so.selected + [sorted[0]]);
      GreedyPicks(picked) && BeatsWaiting(picked.selected, sorted[1..])
  {
    var selected, longer := so.selected, so.selected + [sorted[0]];
    NewPickBeats(selected, sorted);
    hide BeatsAt, ScoreAfter;
    forall k, i | 0 <= k < |longer| && 0 <= i < |sorted| - 1
      ensures BeatsAt(longer, k, sorted[1..][i])
    {
      if k < |selected| { BeatsExtended(selected, sorted[0], k, sorted[1..][i]); }
    }
    forall k, j | 0 <= k < j < |longer|
      ensures BeatsAt(longer, k, longer[j])
    {
      BeatsExtended(selected, sorted[0], k, longer[j]);
      assert j == |selected| ==> longer[j] == sorted[0];
    }
    forall k, r | 0 <= k < |longer| && 0 <= r < |so.rejected| && so.rejected[r].after > k
      ensures BeatsAt(longer, k, so.rejected[r].opportunity)
    {
      BeatsExtended(selected, sorted[0], k, so.rejected[r].opportunity);
    }
  }

  lemma NewPickBeats(selected: seq<Opportunity>, sorted: seq<Opportunity>)
    requires sorted != []
    requires BestFirst(sorted, selected)
    ensures forall i :: 0 <= i < |sorted| - 1 ==> BeatsAt(selected + [sorted[0]], |selected|, sorted[1..][i])
  {
    hide ScoreAfter;
    assert (selected + [sorted[0]])[..|selected|] == selected;
  }

  lemma RejectKeepsGreedy(so: Selection, o: Opportunity, reason: Reason)
    requires GreedyPicks(so) && BeatsWaiting(so.selected, [o])
    ensures GreedyPicks(so.(rejected := so.rejected + [Rejection(o, reason, |so.selected|)]))
  {
    hide BeatsAt;
    var rejected := so.rejected + [Rejection(o, reason, |so.selected|)];
    forall k, r | 0 <= k < |so.selected| && 0 <= r < |rejected| && rejected[r].after > k
      ensures BeatsAt(so.selected, k, rejected[r].opportunity)
    {
      if r < |so.rejected| {
        assert rejected[r] == so.rejected[r];
      } else {
        assert rejected[r].opportunity == [o][0];
      }
    }
  }

  ghost predicate SelectionInvariant(so: Selection, waiting: seq<Opportunity>, config: CarryConfig) {
    && GreedyPicks(so) && BeatsWaiting(so.selected, waiting) && JustifiedLimits(so, config)
    && forall r :: 0 <= r < |so.rejected| ==> so.rejected[r].after <= |so.selected| && so.rejected[r].reason == Limit
  }

  lemma PickKeepsInvariant(so: Selection, sorted: seq<Opportunity>, config: CarryConfig)
    requires sorted != [] && SelectionInvariant(so, sorted, config)
    requires BestFirst(sorted, so.selected)
    ensures SelectionInvariant(so.(selected := so.selected + [sorted[0]]), sorted[1..], config)
  {
    hide LimitReached, Full, GreedyPicks, BeatsWaiting, BestFirst;
    PickKeepsGreedy(so, sorted);
    assert forall n :: 0 <= n <= |so.selected| ==> (so.selected + [sorted[0]])[..n] == so.selected[..n];
  }

  lemma RejectKeepsInvariant(so: Selection, sorted: seq<Opportunity>, config: CarryConfig)
    requires sorted != [] && SelectionInvariant(so, sorted, config) && LimitReached(sorted[0], so.selected, config)
    ensures SelectionInvariant(so.(rejected := so.rejected + [Rejection(sorted[0], Limit, |so.selected|)]), sorted[1..], config)
  {
    LimitReachedIff(sorted[0], so.selected, config);
    hide LimitReached, Full, GreedyPicks, BeatsAt;
    assert so.selected[..|so.selected|] == so.selected;
    assert BeatsWaiting(so.selected, [sorted[0]]);
    RejectKeepsGreedy(so, sorted[0], Limit);
  }

  lemma {:induction false} RejectRestKeepsGreedy(so: Selection, remaining: seq<Opportunity>)
    requires GreedyPicks(so) && BeatsWaiting(so.selected, remaining)
    ensures GreedyPicks(so.(rejected := so.rejected + RejectAll(remaining, |so.selected|)))
  {
    hide BeatsAt;
  }

  /** Each pick has the highest score among everything still available, and every rejection was due. */
  lemma {:induction false} SelectionIsGreedy(remaining: seq<Opportunity>, so: Selection, config: CarryConfig)
    requires SelectionInvariant(so, remaining, config)
    ensures var end := SelectFrom(remaining, so, config);
      GreedyPicks(end) && JustifiedLimits(end, config) && JustifiedExhaustion(end, config)
    decreases |remaining|
  {
    hide ByScore, LimitReached, Full, GreedyPicks, BeatsWaiting, BestFirst, JustifiedExhaustion;
    if remaining == [] || |so.selected| >= config.maxConcurrentOpportunities {
      RejectRestKeepsGreedy(so, remaining);
      ExhaustedAtTheEnd(so, remaining, config);
    } else {
      var sorted := ByScore(remaining, so.selected);
      ByScoreFacts(remaining, so.selected);
      BeatsPermuted(so.selected, remaining, sorted);
      if LimitReached(sorted[0], so.selected, config) {
        RejectKeepsInvariant(so, sorted, config);
        SelectionIsGreedy(sorted[1..], so.(rejected := so.rejected + [Rejection(sorted[0], Limit, |so.selected|)]), config);
      } else {
        PickKeepsInvariant(so, sorted, config);
        SelectionIsGreedy(sorted[1..], so.(selected := so.selected + [sorted[0]]), config);
      }
    }
  }

  /**
   Selection from scratch: a partition of the input, within every limit, each pick the best then available, and
   every rejection justified: for a limit when it was made, for an exhausted budget by a full selection.
   */
  lemma SelectionLaws(opportunities: seq<Opportunity>, config: CarryConfig)
    ensures var so := SelectFrom(opportunities, Selection([], []), config);
      && multiset(so.selected) + multiset(Rejected(so.rejected)) == multiset(opportunities)
      && WithinLimits(so.selected, config) && GreedyPicks(so)
      && JustifiedLimits(so, config) && JustifiedExhaustion(so, config)
  {
    hide SelectFrom;
    var start := Selection([], []);
    assert Rejected([]) == [];
    SelectionPartitions(opportunities, start, config);
    SelectionWithinLimits(opportunities, start, config);
    SelectionIsGreedy(opportunities, start, config);
  }

  // ---- Sizing ----

  /** The gross exposure a sizing run can plan at most, unless it started above. */
  function GrossCap(nav: real, config: CarryConfig): real {
    PctOf(nav, config.maxPositionSizePct) + 0.0000005 * nav + 0.005
  }

  lemma RoundedShare(nav: real, gross: real, maxPct: real, pct: real)
    requires nav > 0.0 && pct <= maxPct - ToFixed(ShareOf(gross, nav), 10000.0)
    ensures gross + PctOf(nav, pct) <= PctOf(nav, maxPct) + 0.0000005 * nav
  {
    var share := ShareOf(gross, nav);
    assert ToFixed(share, 10000.0) >= share - 0.00005;
    hide ToFixed, ShareOf;
    ShareTimesNav(nav, gross);
    PctGrows(nav, pct, maxPct - share + 0.00005);
  }

  lemma ShareTimesNav(nav: real, gross: real)
    requires nav > 0.0
    ensures nav * ShareOf(gross, nav) == gross * 100.0
  {
    var quotient := gross / nav;
    assert quotient * nav == gross;
    assert nav * (quotient * 100.0) == (quotient * nav) * 100.0;
  }

  lemma PctGrows(nav: real, pct: real, bound: real)
    requires nav > 0.0 && pct <= bound
    ensures PctOf(nav, pct) <= nav * bound / 100.0
  {
    assert nav * pct <= nav * bound;
  }

  /** A granted size keeps planned gross exposure under its cap; rounding errors of earlier steps do not add up. */
  lemma GrossStaysUnderCap(book: Book, o: Opportunity, nav: real, config: CarryConfig)
    requires nav > 0.0
    ensures SizeOne(book, o, nav, config).0.gross <= Max(book.gross, GrossCap(nav, config))
  {
    hide KellyPct, PctOf, ShareOf, LeastRoom, ComputeMaxAllowedSize, AddToVenues;
    var current := ToFixed(ShareOf(book.gross, nav), 10000.0);
    var target := TargetSize(book, o, nav, config);
    assert PositionSize(book, o, nav, config) <= target;
    if PositionSize(book, o, nav, config) > 0.0 {
      var remainingPct := config.maxPositionSizePct - current;
      var pct := SizePct(o.expectedAnnualYieldPct, o.confidenceScore, config, remainingPct);
      assert target == ToFixed(PctOf(nav, pct), 100.0);
      RoundedShare(nav, book.gross, config.maxPositionSizePct, pct);
      hide ToFixed;
      assert target <= PctOf(nav, pct) + 0.005;
    }
  }

  // ---- The gross cap without rounding slack ----

  /** The gross cap as configured. */
  function PlainCap(nav: real, config: CarryConfig): real {
    PctOf(nav, config.maxPositionSizePct)
  }

  /** What a size may be at most to respect the configured cap. */
  function TrueRoom(book: Book, nav: real, config: CarryConfig): real {
    Max(0.0, PlainCap(nav, config) - book.gross)
  }

  /** The room as the source computes it: exposure rounded to four decimals of a percent, the result to cents. */
  function RoundedRoom(book: Book, nav: real, config: CarryConfig): real
    requires nav != 0.0
  {
    var remainingPct := config.maxPositionSizePct - ToFixed(ShareOf(book.gross, nav), 10000.0);
    if remainingPct <= 0.0 then 0.0 else ToFixed(PctOf(nav, remainingPct), 100.0)
  }

  /** The bounds on a size that do not look at gross exposure: wanted size, slot, asset room and venue rooms. */
  function OtherBounds(book: Book, o: Opportunity, nav: real, config: CarryConfig): real {
    var wantedPct := Min(Max(KellyPct(o.expectedAnnualYieldPct, o.confidenceScore, config), config.defaultPositionSizePct),
                         config.maxPositionSizePct);
    var assetRoom := PctOf(nav, config.maxAssetExposurePct) - Exposure(book.assets, o.asset);
    LeastRoom(book, o, DistinctVenues(o.legs), PctOf(nav, config.maxVenueExposurePct),
              Min(Min(ToFixed(PctOf(nav, wantedPct), 100.0), ComputeMaxAllowedSize(nav, book.openPositions, config)), assetRoom))
  }

  /** In whole cents, a bound fits into the true room. */
  predicate FitsInCents(bound: real, room: real) {
    bound <= 0.0 || RoundDown(bound, 100.0) <= room
  }

  lemma FloorGrows(x: real, y: real)
    requires x <= y
    ensures x.Floor <= y.Floor
  {
  }

  lemma QuotientGrows(a: real, b: real, scale: real)
    requires scale > 0.0 && a <= b
    ensures a / scale <= b / scale
  {
  }

  function Scaled(x: real, scale: real): real {
    x * scale
  }

  lemma ScaledGrows(x: real, y: real, scale: real)
    requires scale > 0.0 && x <= y
    ensures Scaled(x, scale) <= Scaled(y, scale)
  {
  }

  lemma NearestOf(x: real, scale: real)
    requires scale > 0.0 && x >= 0.0
    ensures Nearest(x, scale) == (Scaled(x, scale) + 0.5).Floor as real / scale
  {
  }

  lemma NearestGrows(x: real, y: real, scale: real)
    requires scale > 0.0 && 0.0 <= x <= y
    ensures Nearest(x, scale) <= Nearest(y, scale)
  {
    hide Nearest, Scaled;
    ScaledGrows(x, y, scale);
    NearestOf(x, scale);
    NearestOf(y, scale);
    var a, b := Scaled(x, scale), Scaled(y, scale);
    FloorGrows(a + 0.5, b + 0.5);
    QuotientGrows((a + 0.5).Floor as real, (b + 0.5).Floor as real, scale);
  }

  lemma ToFixedGrows(x: real, y: real, scale: real)
    requires scale > 0.0 && x <= y
    ensures ToFixed(x, scale) <= ToFixed(y, scale)
  {
    hide Nearest;
    if 0.0 <= x {
      NearestGrows(x, y, scale);
    } else if y < 0.0 {
      NearestGrows(-y, -x, scale);
    }
  }

  lemma RoundDownOf(x: real, scale: real)
    requires scale > 0.0 && x >= 0.0
    ensures RoundDown(x, scale) == Scaled(x, scale).Floor as real / scale
  {
  }

  lemma RoundDownGrows(x: real, y: real, scale: real)
    requires scale > 0.0 && 0.0 <= x <= y
    ensures RoundDown(x, scale) <= RoundDown(y, scale)
  {
    hide RoundDown, Scaled;
    ScaledGrows(x, y, scale);
    RoundDownOf(x, scale);
    RoundDownOf(y, scale);
    FloorGrows(Scaled(x, scale), Scaled(y, scale));
    QuotientGrows(Scaled(x, scale).Floor as real, Scaled(y, scale).Floor as real, scale);
  }

  lemma {:induction false} LeastRoomOfMin(book: Book, o: Opportunity, venues: seq<string>, venueCap: real, x: real, y: real)
    requires venues != [] ==> o.legs != []
    ensures LeastRoom(book, o, venues, venueCap, Min(x, y)) == Min(x, LeastRoom(book, o, venues, venueCap, y))
  {
    hide VenueRoom;
    if venues != [] {
      LeastRoomOfMin(book, o, venues[..|venues| - 1], venueCap, x, y);
    }
  }

  /** The target size is the smaller of the wanted size and the rounded room. */
  lemma TargetIsMin(book: Book, o: Opportunity, nav: real, config: CarryConfig)
    requires nav > 0.0
    ensures var wantedPct := Min(Max(KellyPct(o.expectedAnnualYieldPct, o.confidenceScore, config), config.defaultPositionSizePct),
                                 config.maxPositionSizePct);
      RoundedRoom(book, nav, config) > 0.0
      ==> TargetSize(book, o, nav, config) == Min(RoundedRoom(book, nav, config), ToFixed(PctOf(nav, wantedPct), 100.0))
    ensures RoundedRoom(book, nav, config) <= 0.0 ==> TargetSize(book, o, nav, config) <= 0.0
  {
    hide KellyPct, ShareOf, ToFixed, PctOf;
    var remainingPct := config.maxPositionSizePct - ToFixed(ShareOf(book.gross, nav), 10000.0);
    var wantedPct := Min(Max(KellyPct(o.expectedAnnualYieldPct, o.confidenceScore, config), config.defaultPositionSizePct),
                         config.maxPositionSizePct);
    if remainingPct > 0.0 {
      var least := Min(wantedPct, remainingPct);
      RoundedPctGrows(nav, least, wantedPct);
      RoundedPctGrows(nav, least, remainingPct);
    }
  }

  lemma RoundedPctGrows(nav: real, p: real, q: real)
    requires nav > 0.0 && p <= q
    ensures ToFixed(PctOf(nav, p), 100.0) <= ToFixed(PctOf(nav, q), 100.0)
  {
    hide ToFixed;
    PctGrows(nav, p, q);
    ToFixedGrows(PctOf(nav, p), PctOf(nav, q), 100.0);
  }

  lemma MinReassociates(r: real, w: real, s: real, a: real)
    ensures Min(Min(Min(r, w), s), a) == Min(r, Min(Min(w, s), a))
  {
  }

  lemma SizeIsMin(book: Book, o: Opportunity, nav: real, config: CarryConfig)
    requires nav > 0.0
    ensures RoundedRoom(book, nav, config) > 0.0
      ==> PositionSize(book, o, nav, config) == Min(RoundedRoom(book, nav, config), OtherBounds(book, o, nav, config))
    ensures RoundedRoom(book, nav, config) <= 0.0 ==> PositionSize(book, o, nav, config) <= 0.0
  {
    TargetIsMin(book, o, nav, config);
    hide KellyPct, PctOf, ToFixed, TargetSize, RoundedRoom, ComputeMaxAllowedSize, LeastRoom, DistinctVenues, Exposure, Max;
    if RoundedRoom(book, nav, config) > 0.0 {
      var wantedPct := Min(Max(KellyPct(o.expectedAnnualYieldPct, o.confidenceScore, config), config.defaultPositionSizePct),
                           config.maxPositionSizePct);
      var wanted, slot := ToFixed(PctOf(nav, wantedPct), 100.0), ComputeMaxAllowedSize(nav, book.openPositions, config);
      var assetRoom := PctOf(nav, config.maxAssetExposurePct) - Exposure(book.assets, o.asset);
      MinReassociates(RoundedRoom(book, nav, config), wanted, slot, assetRoom);
      VenuesNeedLegs(o);
      LeastRoomOfMin(book, o, DistinctVenues(o.legs), PctOf(nav, config.maxVenueExposurePct),
                     RoundedRoom(book, nav, config), Min(Min(wanted, slot), assetRoom));
      hide Min;
    }
  }

  lemma MinFitsIff(x: real, y: real, room: real)
    requires room >= 0.0
    ensures FitsInCents(Min(x, y), room) <==> FitsInCents(x, room) || FitsInCents(y, room)
  {
    hide RoundDown;
    if 0.0 < x <= y { RoundDownGrows(x, y, 100.0); }
    if 0.0 < y <= x { RoundDownGrows(y, x, 100.0); }
  }

  predicate StepFits(book: Book, o: Opportunity, nav: real, config: CarryConfig)
    requires nav != 0.0
  {
    || FitsInCents(RoundedRoom(book, nav, config), TrueRoom(book, nav, config))
    || FitsInCents(OtherBounds(book, o, nav, config), TrueRoom(book, nav, config))
  }

  /**
   Exactly when one sizing step respects the gross cap as configured: the rounded room does not exceed the true one,
   or one of the bounds that have nothing to do with gross exposure is as small. All of it is known before the step.
   */
  lemma PlainGrossCapIff(book: Book, o: Opportunity, nav: real, config: CarryConfig)
    requires nav > 0.0
    ensures SizeOne(book, o, nav, config).0.gross <= Max(book.gross, PlainCap(nav, config))
      <==> StepFits(book, o, nav, config)
    ensures SizeOne(book, o, nav, config).0.gross >= book.gross
  {
    SizeIsMin(book, o, nav, config);
    hide PctOf, RoundDown, PositionSize, RoundedRoom, OtherBounds, AddToVenues, DistinctVenues, Exposure;
    MinFitsIff(RoundedRoom(book, nav, config), OtherBounds(book, o, nav, config), TrueRoom(book, nav, config));
  }

  ghost predicate EveryStepFits(book: Book, selected: seq<Opportunity>, nav: real, config: CarryConfig)
    requires nav != 0.0
  {
    forall i :: 0 <= i < |selected| ==> StepFits(SizeAll(book, selected[..i], nav, config), selected[i], nav, config)
  }

  lemma EveryStepFitsUnfolds(book: Book, front: seq<Opportunity>, last: Opportunity, nav: real, config: CarryConfig)
    requires nav != 0.0
    ensures EveryStepFits(book, front + [last], nav, config)
      <==> EveryStepFits(book, front, nav, config) && StepFits(SizeAll(book, front, nav, config), last, nav, config)
  {
    hide StepFits, SizeAll;
    var longer := front + [last];
    assert forall i :: 0 <= i < |front| ==> longer[..i] == front[..i] && longer[i] == front[i];
    assert longer[..|front|] == front && longer[|front|] == last;
    if EveryStepFits(book, longer, nav, config) {
      forall i | 0 <= i < |front|
        ensures StepFits(SizeAll(book, front[..i], nav, config), front[i], nav, config)
      {
        assert StepFits(SizeAll(book, longer[..i], nav, config), longer[i], nav, config);
      }
    }
  }

  /** Over a whole sizing run the configured gross cap holds if and only if every step fits: no later step repairs it. */
  lemma {:induction false} PlainGrossCapOverRunIff(book: Book, selected: seq<Opportunity>, nav: real, config: CarryConfig)
    requires nav > 0.0
    ensures SizeAll(book, selected, nav, config).gross <= Max(book.gross, PlainCap(nav, config))
      <==> EveryStepFits(book, selected, nav, config)
    ensures SizeAll(book, selected, nav, config).gross >= book.gross
  {
    hide StepFits, SizeOne, PlainCap, EveryStepFits;
    if selected != [] {
      var front, last := selected[..|selected| - 1], selected[|selected| - 1];
      assert selected == front + [last];
      PlainGrossCapOverRunIff(book, front, nav, config);
      EveryStepFitsUnfolds(book, front, last, nav, config);
      PlainGrossCapIff(SizeAll(book, front, nav, config), last, nav, config);
    } else {
      NoStepFits(book, nav, config);
    }
  }

  lemma NoStepFits(book: Book, nav: real, config: CarryConfig)
    requires nav != 0.0
    ensures EveryStepFits(book, [], nav, config)
  {
  }

  /** Rounding does no harm when the exposure was not rounded down and the remaining room is in whole cents. */
  lemma HarmlessRounding(book: Book, nav: real, config: CarryConfig)
    requires nav > 0.0
    requires ToFixed(ShareOf(book.gross, nav), 10000.0) >= ShareOf(book.gross, nav)
    requires var remainingPct := config.maxPositionSizePct - ToFixed(ShareOf(book.gross, nav), 10000.0);
      ToFixed(PctOf(nav, remainingPct), 100.0) <= PctOf(nav, remainingPct)
    ensures FitsInCents(RoundedRoom(book, nav, config), TrueRoom(book, nav, config))
  {
    hide ToFixed, ShareOf, PctOf, RoundDown;
    var share := ToFixed(ShareOf(book.gross, nav), 10000.0);
    RoomOfShare(nav, book.gross, config.maxPositionSizePct, share);
  }

  /** A share that is not below the true one leaves at most the true room. */
  lemma RoomOfShare(nav: real, gross: real, maxPct: real, share: real)
    requires nav > 0.0 && share >= ShareOf(gross, nav)
    ensures PctOf(nav, maxPct - share) <= PctOf(nav, maxPct) - gross
  {
    hide ShareOf;
    var exact := ShareOf(gross, nav);
    ShareTimesNav(nav, gross);
    PctGrows(nav, maxPct - share, maxPct - exact);
    assert nav * (maxPct - exact) == nav * maxPct - nav * exact;
  }

  /** With a NAV of a million and a 60 % cap, gross exposure of 500000.40 grows to 600000.40. */
  lemma GrossCapIsExceeded(o: Opportunity, venue: string)
    requires o.legs == [venue]
    ensures var config := CarryConfig(20.0, 60.0, 0.0, 1, 1, 1, 100.0, 100.0);
      && PlainCap(1000000.0, config) == 600000.0
      && SizeOne(Book(500000.4, 0, map[], map[]), o, 1000000.0, config).0.gross == 600000.4
  {
    var config := CarryConfig(20.0, 60.0, 0.0, 1, 1, 1, 100.0, 100.0);
    var book := Book(500000.4, 0, map[], map[]);
    assert ShareOf(500000.4, 1000000.0) == 50.00004;
    assert ToFixed(50.00004, 10000.0) == 50.0;
    assert KellyPct(o.expectedAnnualYieldPct, o.confidenceScore, config) == 0.0;
    assert PctOf(1000000.0, 10.0) == 100000.0 && ToFixed(100000.0, 100.0) == 100000.0;
    assert TargetSize(book, o, 1000000.0, config) == 100000.0;
    assert ComputeMaxAllowedSize(1000000.0, 0, config) == 200000.0;
    assert o.legs[..0] == [] && DistinctVenues([]) == [];
    assert DistinctVenues(o.legs) == [venue] && [venue][..0] == [];
    assert LegCount(o.legs, venue) == 1;
    assert VenueRoom(book, o, venue, 1000000.0) == 1000000.0;
    assert PctOf(1000000.0, 100.0) == 1000000.0;
    assert LeastRoom(book, o, [], 1000000.0, 100000.0) == 100000.0;
    assert LeastRoom(book, o, [venue], 1000000.0, 100000.0) == 100000.0;
    assert PositionSize(book, o, 1000000.0, config) == 100000.0;
    assert RoundDown(100000.0, 100.0) == 100000.0;
  }

  lemma AssetStaysUnderCap(book: Book, o: Opportunity, nav: real, config: CarryConfig, asset: string)
    requires nav > 0.0
    ensures Exposure(SizeOne(book, o, nav, config).0.assets, asset)
         <= Max(Exposure(book.assets, asset), PctOf(nav, config.maxAssetExposurePct))
  {
    hide PctOf, TargetSize, ComputeMaxAllowedSize, AddToVenues;
  }

  lemma SlotsStayUnderLimit(book: Book, o: Opportunity, nav: real, config: CarryConfig)
    requires nav > 0.0
    ensures var after := SizeOne(book, o, nav, config).0.openPositions;
      after <= book.openPositions || after <= config.maxConcurrentOpportunities
  {
    hide PctOf, TargetSize, AddToVenues;
  }

  lemma {:induction false} VenuesAddOnce(m: map<string, real>, o: Opportunity, venues: seq<string>, size: real, v: string)
    requires venues != [] ==> o.legs != []
    requires forall i, j :: 0 <= i < j < |venues| ==> venues[i] != venues[j]
    ensures Exposure(AddToVenues(m, o, venues, size), v)
         == Exposure(m, v) + if v in venues then Worth(size, Weight(o, v)) else 0.0
  {
    hide Worth, Weight;
    if venues != [] {
      var front, last := venues[..|venues| - 1], venues[|venues| - 1];
      VenuesAddOnce(m, o, front, size, v);
      assert venues == front + [last];
    }
  }

  lemma {:induction false} LegCountPositive(legs: seq<string>, v: string)
    ensures v in legs <==> LegCount(legs, v) > 0
  {
    if legs != [] {
      LegCountPositive(legs[..|legs| - 1], v);
      assert legs == legs[..|legs| - 1] + [legs[|legs| - 1]];
    }
  }

  lemma WeightPositive(o: Opportunity, v: string)
    requires v in o.legs
    ensures Weight(o, v) > 0.0
  {
    LegCountPositive(o.legs, v);
    assert LegCount(o.legs, v) as real > 0.0 && |o.legs| as real > 0.0;
  }

  lemma WithinRoom(size: real, weight: real, room: real)
    requires weight > 0.0 && size <= room / weight
    ensures Worth(size, weight) <= room
  {
    assert room / weight * weight == room;
  }

  lemma VenuesNeedLegs(o: Opportunity)
    ensures DistinctVenues(o.legs) != [] ==> o.legs != []
    ensures var venues := DistinctVenues(o.legs); forall i, j :: 0 <= i < j < |venues| ==> venues[i] != venues[j]
    ensures forall v :: v in DistinctVenues(o.legs) <==> v in o.legs
  {
  }

  lemma VenueStaysUnderCap(book: Book, o: Opportunity, nav: real, config: CarryConfig, venue: string)
    requires nav > 0.0
    ensures Exposure(SizeOne(book, o, nav, config).0.venues, venue)
         <= Max(Exposure(book.venues, venue), PctOf(nav, config.maxVenueExposurePct))
  {
    hide PctOf, TargetSize, ComputeMaxAllowedSize, AddToVenues, Worth, Weight, DistinctVenues;
    var size := PositionSize(book, o, nav, config);
    var venues := DistinctVenues(o.legs);
    if size > 0.0 {
      var granted := RoundDown(size, 100.0);
      VenuesNeedLegs(o);
      VenuesAddOnce(book.venues, o, venues, granted, venue);
      if venue in venues {
        var cap := PctOf(nav, config.maxVenueExposurePct);
        WeightPositive(o, venue);
        assert size <= VenueRoom(book, o, venue, cap) by {
          var i :| 0 <= i < |venues| && venues[i] == venue;
        }
        WithinRoom(granted, Weight(o, venue), cap - Exposure(book.venues, venue));
      }
    }
  }

  /**
   After sizing any list of opportunities, every asset's and every venue's exposure is at most the larger of its
   initial value and its cap, slots never pass their limit unless they started above it, and planned gross exposure
   is at most the larger of its initial value and its cap.
   */
  lemma {:induction false} SizingRespectsCaps(book: Book, selected: seq<Opportunity>, nav: real, config: CarryConfig)
    requires nav > 0.0
    ensures var after := SizeAll(book, selected, nav, config);
      && (forall a: string :: Exposure(after.assets, a) <= Max(Exposure(book.assets, a), PctOf(nav, config.maxAssetExposurePct)))
      && (forall v: string :: Exposure(after.venues, v) <= Max(Exposure(book.venues, v), PctOf(nav, config.maxVenueExposurePct)))
      && after.gross <= Max(book.gross, GrossCap(nav, config))
      && (after.openPositions <= book.openPositions || after.openPositions <= config.maxConcurrentOpportunities)
  {
    hide PctOf, GrossCap, SizeOne, Exposure;
    if selected != [] {
      var front, last := selected[..|selected| - 1], selected[|selected| - 1];
      SizingRespectsCaps(book, front, nav, config);
      var before := SizeAll(book, front, nav, config);
      GrossStaysUnderCap(before, last, nav, config);
      SlotsStayUnderLimit(before, last, nav, config);
      forall a: string
        ensures Exposure(SizeOne(before, last, nav, config).0.assets, a)
             <= Max(Exposure(before.assets, a), PctOf(nav, config.maxAssetExposurePct))
      {
        AssetStaysUnderCap(before, last, nav, config, a);
      }
      forall v: string
        ensures Exposure(SizeOne(before, last, nav, config).0.venues, v)
             <= Max(Exposure(before.venues, v), PctOf(nav, config.maxVenueExposurePct))
      {
        VenueStaysUnderCap(before, last, nav, config, v);
      }
    }
  }

  /** Scores lie between 0 and 1. */
  lemma ScoreRange(o: Opportunity, selectedAssets: set<string>, selectedVenues: set<string>)
    ensures 0.0 <= TotalScore(o, selectedAssets, selectedVenues) <= 1.0
  {
    hide ToFixed, VenueSet;
    var s := TotalScore(o, selectedAssets, selectedVenues);
    assert s < 1.0001;
    ScoreIsRounded(o, selectedAssets, selectedVenues);
  }

  lemma ScoreIsRounded(o: Opportunity, selectedAssets: set<string>, selectedVenues: set<string>)
    ensures var s := TotalScore(o, selectedAssets, selectedVenues); s * 10000.0 == (s * 10000.0).Floor as real
  {
    hide VenueSet;
  }
}
