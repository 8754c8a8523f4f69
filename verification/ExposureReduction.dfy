/**
 Reducing carry exposure: positions are closed from the largest notional down until the requested amount is
 covered; only the last one may be closed in part. Sizes of the resulting orders are exact, without the final
 eight-decimal string formatting.
 */
module ExposureReduction {
  import opened Basics
  import StableSort
  import Sums

  datatype Position = Position(positionId: string, isLong: bool, size: real, markPrice: real)
  datatype Intent = Intent(position: Position, side: Side, units: real, reducingUsd: real, reduceOnly: bool)

  function Notional(p: Position): real {
    Worth(p.size, p.markPrice)
  }

  /** Largest notional first, equal ones in their given order. */
  function Sorted(positions: seq<Position>): seq<Position> {
    StableSort.SortBy(positions, (p: Position) => -Notional(p))
  }

  function IntentFor(p: Position, reducingUsd: real): Intent
    requires p.markPrice > 0.0
  {
    Intent(p, if p.isLong then Sell else Buy, reducingUsd / p.markPrice, reducingUsd, true)
  }

  function Plan(sorted: seq<Position>, remaining: real): seq<Intent> {
    if sorted == [] || remaining <= 0.0 then []
    else if sorted[0].markPrice <= 0.0 then Plan(sorted[1..], remaining)
    else
      var reducing := Min(Notional(sorted[0]), remaining);
      [IntentFor(sorted[0], reducing)] + Plan(sorted[1..], remaining - reducing)
  }

  method BuildCarryReductionIntents(positions: seq<Position>, notionalReductionUsd: real) returns (intents: seq<Intent>)
    ensures intents == Plan(Sorted(positions), notionalReductionUsd)
  {
    hide Worth, IntentFor;
    var sorted := Sorted(positions);
    var remaining := notionalReductionUsd;
    intents := [];
    var i := 0;
    while i < |sorted|
      invariant 0 <= i <= |sorted|
      invariant intents + Plan(sorted[i..], remaining) == Plan(sorted, notionalReductionUsd)
    {
      var position := sorted[i];
      assert sorted[i..][1..] == sorted[i + 1..];
      if remaining <= 0.0 {
        break;
      }
      if position.markPrice > 0.0 {
        var reducingUsd := Min(Notional(position), remaining);
        intents := intents + [IntentFor(position, reducingUsd)];
        remaining := remaining - reducingUsd;
      }
      i := i + 1;
    }
  }

  // ---- Reference quantities ----

  ghost function NotionalOf(): Position -> real {
    (p: Position) => Notional(p)
  }

  /** Only positions with a positive price can be reduced. */
  ghost function ReducibleOf(): Position -> real {
    (p: Position) => if p.markPrice > 0.0 then Notional(p) else 0.0
  }

  ghost function PlannedOf(): Intent -> real {
    (i: Intent) => i.reducingUsd
  }

  ghost function Reducible(positions: seq<Position>): real {
    Sums.Sum(positions, ReducibleOf())
  }

  ghost predicate SizesNonNegative(positions: seq<Position>) {
    forall i :: 0 <= i < |positions| ==> positions[i].size >= 0.0
  }

  lemma NotionalSign(p: Position)
    requires p.size >= 0.0
    ensures p.markPrice > 0.0 ==> Notional(p) >= 0.0
    ensures p.markPrice <= 0.0 ==> Notional(p) <= 0.0
  {
  }

  lemma SumFront<T>(s: seq<T>, f: T -> real)
    requires s != []
    ensures Sums.Sum(s, f) == f(s[0]) + Sums.Sum(s[1..], f)
  {
    hide Sums.Sum;
    assert s == [s[0]] + s[1..];
    Sums.SumAppend([s[0]], s[1..], f);
    Sums.SumSingle(s[0], f);
  }

  lemma {:induction false} ReducibleNonNegative(positions: seq<Position>)
    requires SizesNonNegative(positions)
    ensures Reducible(positions) >= 0.0
  {
    hide Worth;
    if positions != [] {
      ReducibleNonNegative(positions[..|positions| - 1]);
      NotionalSign(positions[|positions| - 1]);
    }
  }

  // ---- What a plan reduces ----

  /** Exact planned reductions add up to the request, or to everything that can be reduced. */
  lemma {:induction false} PlanTotal(sorted: seq<Position>, remaining: real)
    requires SizesNonNegative(sorted) && remaining >= 0.0
    ensures Sums.Sum(Plan(sorted, remaining), PlannedOf()) == Min(remaining, Reducible(sorted))
  {
    hide Worth, Sums.Sum;
    EmptySums();
    ReducibleNonNegative(sorted);
    if sorted != [] && remaining > 0.0 {
      NotionalSign(sorted[0]);
      ReducibleNonNegative(sorted[1..]);
      SumFront(sorted, ReducibleOf());
      if sorted[0].markPrice <= 0.0 {
        PlanTotal(sorted[1..], remaining);
      } else {
        var reducing := Min(Notional(sorted[0]), remaining);
        PlanTotal(sorted[1..], remaining - reducing);
        var plan := Plan(sorted, remaining);
        assert plan[1..] == Plan(sorted[1..], remaining - reducing);
        SumFront(plan, PlannedOf());
      }
    }
  }

  lemma EmptySums()
    ensures Sums.Sum<Intent>([], PlannedOf()) == 0.0
    ensures Sums.Sum<Position>([], ReducibleOf()) == 0.0
  {
  }

  /** No reduction exceeds its position, in money or in units, and only the last may be partial. */
  lemma {:induction false} PlanShape(sorted: seq<Position>, remaining: real, k: nat)
    requires SizesNonNegative(sorted) && k < |Plan(sorted, remaining)|
    ensures var plan := Plan(sorted, remaining);
      && plan[k].position in sorted
      && 0.0 <= plan[k].reducingUsd <= Notional(plan[k].position)
      && 0.0 <= plan[k].units <= plan[k].position.size
      && Worth(plan[k].units, plan[k].position.markPrice) == plan[k].reducingUsd
      && (k < |plan| - 1 ==> plan[k].reducingUsd == Notional(plan[k].position))
      && plan[k].reduceOnly && plan[k].side == (if plan[k].position.isLong then Sell else Buy)
  {
    hide Worth;
    var p := sorted[0];
    if p.markPrice <= 0.0 {
      PlanShape(sorted[1..], remaining, k);
    } else {
      NotionalSign(p);
      var reducing := Min(Notional(p), remaining);
      if k > 0 {
        PlanShape(sorted[1..], remaining - reducing, k - 1);
      } else {
        UnitsWithinSize(p, reducing);
      }
    }
  }

  lemma UnitsWithinSize(p: Position, reducing: real)
    requires p.markPrice > 0.0 && 0.0 <= reducing <= Notional(p)
    ensures 0.0 <= reducing / p.markPrice <= p.size
    ensures Worth(reducing / p.markPrice, p.markPrice) == reducing
  {
    var units := reducing / p.markPrice;
    assert units * p.markPrice == reducing;
    assert units > p.size ==> (units - p.size) * p.markPrice > 0.0;
    assert units < 0.0 ==> units * p.markPrice < 0.0;
  }

  // ---- As few positions as possible ----

  ghost predicate Descending(s: seq<Position>) {
    forall i, j :: 0 <= i < j < |s| ==> Notional(s[i]) >= Notional(s[j])
  }

  /** Any `n` positions are worth at most the first `n` in descending order. */
  lemma {:induction false} PrefixIsHeaviest(sorted: seq<Position>, chosen: seq<Position>)
    requires Descending(sorted) && multiset(chosen) <= multiset(sorted)
    ensures |chosen| <= |sorted|
    ensures Sums.Sum(chosen, NotionalOf()) <= Sums.Sum(sorted[..|chosen|], NotionalOf())
    decreases |sorted|
  {
    hide Worth, Sums.Sum, Descending;
    if sorted == [] {
      assert |multiset(chosen)| == 0;
      assert chosen == sorted[..|chosen|];
    } else if chosen != [] {
      var first, rest := sorted[0], sorted[1..];
      RestIsDescending(sorted);
      WithoutFirst(sorted, chosen);
      if first in multiset(chosen) {
        var a, b := Sums.SplitAt(chosen, first);
        PrefixIsHeaviest(rest, a + b);
        HeadOnBothSides(sorted, a, b);
      } else {
        PrefixIsHeaviest(rest, chosen);
        PrefixShift(sorted, |chosen|);
      }
    } else {
      assert sorted[..0] == chosen;
    }
  }

  lemma HeadOnBothSides(sorted: seq<Position>, a: seq<Position>, b: seq<Position>)
    requires sorted != [] && |a + b| <= |sorted| - 1
    requires Sums.Sum(a + b, NotionalOf()) <= Sums.Sum(sorted[1..][..|a + b|], NotionalOf())
    ensures var chosen := a + ([sorted[0]] + b);
      Sums.Sum(chosen, NotionalOf()) <= Sums.Sum(sorted[..|chosen|], NotionalOf())
  {
    hide Worth, Sums.Sum;
    Sums.SumInsert(a, sorted[0], b, NotionalOf());
    var n := |a + b| + 1;
    SumFront(sorted[..n], NotionalOf());
    assert sorted[..n][1..] == sorted[1..][..n - 1];
  }

  lemma RestIsDescending(sorted: seq<Position>)
    requires Descending(sorted) && sorted != []
    ensures Descending(sorted[1..])
  {
  }

  /** Removing the head of `sorted` from both sides, or leaving a selection without it alone. */
  lemma WithoutFirst(sorted: seq<Position>, chosen: seq<Position>)
    requires sorted != [] && multiset(chosen) <= multiset(sorted)
    ensures sorted[0] !in multiset(chosen) ==> multiset(chosen) <= multiset(sorted[1..])
    ensures multiset(chosen) - multiset{sorted[0]} <= multiset(sorted[1..])
  {
    assert sorted == [sorted[0]] + sorted[1..];
    assert multiset(sorted) == multiset{sorted[0]} + multiset(sorted[1..]);
  }

  lemma {:induction false} PrefixShift(sorted: seq<Position>, n: nat)
    requires Descending(sorted) && 0 < n < |sorted|
    ensures Sums.Sum(sorted[1..][..n], NotionalOf()) <= Sums.Sum(sorted[..n], NotionalOf())
  {
    hide Worth;
    assert sorted[1..][..n][..n - 1] == sorted[1..][..n - 1];
    assert sorted[..n][..n - 1] == sorted[..n - 1];
    assert sorted[1..][n - 1] == sorted[n];
    if n > 1 {
      PrefixShift(sorted, n - 1);
    } else {
      assert sorted[1..][..0] == [] && sorted[..0] == [];
    }
  }

  /** A plan for a request that can be covered is never empty and takes one position after the other. */
  lemma {:induction false} PlanIsAPrefix(sorted: seq<Position>, remaining: real)
    requires SizesNonNegative(sorted) && Descending(sorted) && remaining > 0.0
    requires remaining <= Reducible(sorted)
    ensures 1 <= |Plan(sorted, remaining)| <= |sorted|
  {
    hide Worth, Sums.Sum;
    EmptySums();
    assert sorted != [];
    var p, rest := sorted[0], sorted[1..];
    NotionalSign(p);
    SumFront(sorted, ReducibleOf());
    if p.markPrice <= 0.0 {
      NothingLeft(sorted);
      assert false;
    } else {
      var reducing := Min(Notional(p), remaining);
      if remaining - reducing > 0.0 {
        PlanIsAPrefix(rest, remaining - reducing);
      } else {
        NothingRequested(rest, remaining - reducing);
      }
    }
  }

  lemma NoPositions()
    ensures Sums.Sum<Position>([], NotionalOf()) == 0.0
  {
  }

  /** When the heaviest position has no positive price, nothing at all can be reduced. */
  lemma {:induction false} NothingLeft(sorted: seq<Position>)
    requires SizesNonNegative(sorted) && Descending(sorted) && sorted != [] && sorted[0].markPrice <= 0.0
    ensures Reducible(sorted) == 0.0
  {
    hide Worth;
    var last := sorted[|sorted| - 1];
    NotionalSign(sorted[0]);
    NotionalSign(last);
    if |sorted| > 1 {
      assert Notional(sorted[0]) >= Notional(last);
      assert sorted[..|sorted| - 1][0] == sorted[0];
      NothingLeft(sorted[..|sorted| - 1]);
      assert Reducible(sorted) == Reducible(sorted[..|sorted| - 1]) + ReducibleOf()(last);
    } else {
      assert sorted[..0] == [];
      assert Reducible(sorted) == Reducible([]) + ReducibleOf()(last);
    }
  }

  lemma SortedFacts(positions: seq<Position>)
    ensures multiset(Sorted(positions)) == multiset(positions)
    ensures Descending(Sorted(positions))
    ensures SizesNonNegative(positions) ==> SizesNonNegative(Sorted(positions))
    ensures Reducible(Sorted(positions)) == Reducible(positions)
  {
    hide Worth;
    var key := (p: Position) => -Notional(p);
    var sorted := Sorted(positions);
    StableSort.SortByCorrect(positions, key);
    forall i, j | 0 <= i < j < |sorted|
      ensures Notional(sorted[i]) >= Notional(sorted[j])
    {
      assert key(sorted[i]) <= key(sorted[j]);
    }
    if SizesNonNegative(positions) {
      forall i | 0 <= i < |sorted|
        ensures sorted[i].size >= 0.0
      {
        assert sorted[i] in multiset(positions);
      }
    }
    Sums.SumPermutes(sorted, positions, ReducibleOf());
  }

  /**
   The whole reduction: planned amounts add up to the request or to all that is reducible; and when the request can
   be covered, no smaller selection of positions is worth enough.
   */
  lemma ReductionIsExactAndMinimal(positions: seq<Position>, requested: real)
    requires SizesNonNegative(positions) && requested >= 0.0
    ensures var plan := Plan(Sorted(positions), requested);
      && Sums.Sum(plan, PlannedOf()) == Min(requested, Reducible(positions))
      && (requested <= Reducible(positions) ==>
            forall chosen: seq<Position> ::
              multiset(chosen) <= multiset(positions) && Sums.Sum(chosen, NotionalOf()) >= requested
              ==> |plan| <= |chosen|)
  {
    hide Worth, Sums.Sum, Plan, Sorted;
    var sorted := Sorted(positions);
    SortedFacts(positions);
    PlanTotal(sorted, requested);
    var plan := Plan(sorted, requested);
    if requested <= Reducible(positions) {
      forall chosen: seq<Position> | multiset(chosen) <= multiset(positions) && Sums.Sum(chosen, NotionalOf()) >= requested
        ensures |plan| <= |chosen|
      {
        if requested > 0.0 {
          PlanIsAPrefix(sorted, requested);
          PrefixIsHeaviest(sorted, chosen);
          if |chosen| < |plan| {
            HeavierPrefix(sorted, requested, |chosen|);
          }
        } else {
          NothingRequested(sorted, requested);
        }
      }
    }
  }

  lemma NothingRequested(sorted: seq<Position>, requested: real)
    requires requested <= 0.0
    ensures Plan(sorted, requested) == []
  {
  }

  /** Every shorter prefix of a plan's positions falls short of the request. */
  lemma {:induction false} HeavierPrefix(sorted: seq<Position>, requested: real, n: nat)
    requires SizesNonNegative(sorted) && Descending(sorted) && 0.0 < requested <= Reducible(sorted)
    requires n < |Plan(sorted, requested)| <= |sorted|
    ensures Sums.Sum(sorted[..n], NotionalOf()) < requested
  {
    hide Worth, Sums.Sum;
    NoPositions();
    if n == 0 {
      assert sorted[..0] == [];
    } else {
      var p, rest := sorted[0], sorted[1..];
      EmptySums();
      SumFront(sorted, ReducibleOf());
      NotionalSign(p);
      if p.markPrice <= 0.0 {
        NothingLeft(sorted);
        assert false;
      } else {
        var reducing := Min(Notional(p), requested);
        HeavierPrefix(rest, requested - reducing, n - 1);
        SumFront(sorted[..n], NotionalOf());
        assert sorted[..n][1..] == rest[..n - 1];
      }
    }
  }
}
