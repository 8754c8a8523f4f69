/**
 Positions rebuilt from fills: an accumulator that opens, extends, reduces, flattens and flips a net position
 with its average entry price, one accumulator per market key.
 */
module DerivativeLedger {
  import opened Basics
  import StableSort

  datatype Fill = Fill(key: string, clientOrderId: string, side: Side, size: real, price: real, filledAt: int)

  datatype Position = Position(
    executedBuyQuantity: real,
    executedSellQuantity: real,
    fillCount: nat,
    orderIds: set<string>,
    firstFilledAt: Option<int>,
    lastFilledAt: Option<int>,
    netQuantity: real,
    averageEntryPrice: Option<real>)

  const EMPTY: Position := Position(0.0, 0.0, 0, {}, None, None, 0.0, None)

  function Signed(fill: Fill): real {
    if fill.side == Buy then fill.size else -fill.size
  }

  /** `signed.isPositive()`: the sign bit, so a zero buy is positive and a zero sell is not. */
  predicate SignedIsPositive(fill: Fill) {
    if fill.size == 0.0 then fill.side == Buy else Signed(fill) > 0.0
  }

  function Earlier(current: Option<int>, t: int): Option<int> {
    if current.None? || t < current.value then Some(t) else current
  }

  function Later(current: Option<int>, t: int): Option<int> {
    if current.None? || t > current.value then Some(t) else current
  }

  /** The average after adding to a position on the same side. */
  function BlendedPrice(existing: real, average: real, incoming: real, price: real): real
    requires existing + incoming != 0.0
  {
    (Worth(existing, average) + Worth(incoming, price)) / (existing + incoming)
  }

  predicate Extends(p: Position, fill: Fill) {
    p.netQuantity == 0.0 || (p.netQuantity > 0.0) == SignedIsPositive(fill)
  }

  function ApplyFill(p: Position, fill: Fill): Position {
    var signed := Signed(fill);
    var net := p.netQuantity + signed;
    var existingAbs, incomingAbs := Abs(p.netQuantity), Abs(signed);
    var average :=
      if Extends(p, fill) then
        if net == 0.0 then None
        else Some(BlendedPrice(existingAbs, p.averageEntryPrice.GetOr(0.0), incomingAbs, fill.price))
      else if incomingAbs < existingAbs then p.averageEntryPrice
      else if net == 0.0 then None
      else Some(fill.price);
    Position(
      if fill.side == Buy then p.executedBuyQuantity + fill.size else p.executedBuyQuantity,
      if fill.side == Sell then p.executedSellQuantity + fill.size else p.executedSellQuantity,
      p.fillCount + 1,
      p.orderIds + {fill.clientOrderId},
      Earlier(p.firstFilledAt, fill.filledAt),
      Later(p.lastFilledAt, fill.filledAt),
      net,
      average)
  }

  function Replay(fills: seq<Fill>): Position {
    if fills == [] then EMPTY else ApplyFill(Replay(fills[..|fills| - 1]), fills[|fills| - 1])
  }

  // ---- Reference quantities ----

  function TotalSize(fills: seq<Fill>, side: Side): real {
    if fills == [] then 0.0
    else
      var last := fills[|fills| - 1];
      TotalSize(fills[..|fills| - 1], side) + if last.side == side then last.size else 0.0
  }

  function TotalNotional(fills: seq<Fill>, side: Side): real {
    if fills == [] then 0.0
    else
      var last := fills[|fills| - 1];
      TotalNotional(fills[..|fills| - 1], side) + if last.side == side then Worth(last.size, last.price) else 0.0
  }

  /** The part of a signed position that a fill on the other side closes. */
  function Closed(net: real, signed: real): real {
    if net > 0.0 && signed < 0.0 then Min(net, -signed)
    else if net < 0.0 && signed > 0.0 then -Min(-net, signed)
    else 0.0
  }

  /** Gain on everything closed so far: closed quantity times the difference of exit and entry price. */
  function RealizedGain(fills: seq<Fill>): real {
    if fills == [] then 0.0
    else
      var before, fill := Replay(fills[..|fills| - 1]), fills[|fills| - 1];
      var closed := Closed(before.netQuantity, Signed(fill));
      RealizedGain(fills[..|fills| - 1])
      + Worth(closed, fill.price) - Worth(closed, before.averageEntryPrice.GetOr(0.0))
  }

  /** Prices at which the current position was opened or extended, since it was last flat or flipped. */
  function EntryPrices(fills: seq<Fill>): seq<real> {
    if fills == [] then []
    else
      var before, fill := Replay(fills[..|fills| - 1]), fills[|fills| - 1];
      var net := before.netQuantity + Signed(fill);
      if net == 0.0 then []
      else if before.netQuantity == 0.0 || (before.netQuantity > 0.0) != (net > 0.0) then [fill.price]
      else if Abs(net) > Abs(before.netQuantity) then EntryPrices(fills[..|fills| - 1]) + [fill.price]
      else EntryPrices(fills[..|fills| - 1])
  }

  ghost predicate PositiveSizes(fills: seq<Fill>) {
    forall i :: 0 <= i < |fills| ==> fills[i].size > 0.0
  }

  ghost predicate AllWithin(prices: seq<real>, lo: real, hi: real) {
    forall i :: 0 <= i < |prices| ==> lo <= prices[i] <= hi
  }

  // ---- Laws ----

  /** The net position is what was bought minus what was sold, and there is an average price exactly while it is open. */
  lemma {:induction false} NetAndAverage(fills: seq<Fill>)
    requires PositiveSizes(fills)
    ensures var p := Replay(fills);
      && p.netQuantity == TotalSize(fills, Buy) - TotalSize(fills, Sell)
      && p.executedBuyQuantity == TotalSize(fills, Buy)
      && p.executedSellQuantity == TotalSize(fills, Sell)
      && (p.averageEntryPrice == None <==> p.netQuantity == 0.0)
      && p.fillCount == |fills|
  {
    hide Worth, BlendedPrice;
    if fills != [] {
      NetAndAverage(fills[..|fills| - 1]);
    }
  }

  lemma BlendIsBetween(existing: real, average: real, incoming: real, price: real, lo: real, hi: real)
    requires existing >= 0.0 && incoming > 0.0
    requires lo <= price <= hi && (existing > 0.0 ==> lo <= average <= hi)
    ensures lo <= BlendedPrice(existing, average, incoming, price) <= hi
  {
    hide Worth, BlendedPrice;
    var total := existing + incoming;
    if existing > 0.0 {
      WorthOrders(existing, lo, average);
      WorthOrders(existing, average, hi);
    } else {
      WorthNegates(0.0, average);
      WorthNegates(0.0, lo);
      WorthNegates(0.0, hi);
    }
    WorthOrders(incoming, lo, price);
    WorthOrders(incoming, price, hi);
    WorthSplits(existing, incoming, lo);
    WorthSplits(existing, incoming, hi);
    BlendTimesTotal(existing, average, incoming, price);
    WorthReflectsOrder(total, lo, BlendedPrice(existing, average, incoming, price));
    WorthReflectsOrder(total, BlendedPrice(existing, average, incoming, price), hi);
  }

  lemma WorthOrders(quantity: real, p: real, q: real)
    requires quantity >= 0.0 && p <= q
    ensures Worth(quantity, p) <= Worth(quantity, q)
  {
  }

  lemma WorthReflectsOrder(quantity: real, p: real, q: real)
    requires quantity > 0.0 && Worth(quantity, p) <= Worth(quantity, q)
    ensures p <= q
  {
    assert q < p ==> quantity * (p - q) > 0.0;
  }

  /** The average entry price lies within the prices that built the current position. */
  lemma {:induction false} AverageWithinEntryPrices(fills: seq<Fill>, lo: real, hi: real)
    requires PositiveSizes(fills) && AllWithin(EntryPrices(fills), lo, hi)
    ensures var average := Replay(fills).averageEntryPrice; average.Some? ==> lo <= average.value <= hi
    ensures Replay(fills).netQuantity != 0.0 ==> EntryPrices(fills) != []
  {
    hide Worth, BlendedPrice;
    if fills != [] {
      var prefix, fill := fills[..|fills| - 1], fills[|fills| - 1];
      var before, after := Replay(prefix), Replay(fills);
      var entries := EntryPrices(fills);
      NetAndAverage(prefix);
      NetAndAverage(fills);
      if after.netQuantity != 0.0 {
        if before.netQuantity == 0.0 {
          assert entries == [fill.price] && entries[0] == fill.price;
          BlendIsBetween(0.0, 0.0, fill.size, fill.price, lo, hi);
        } else if Extends(before, fill) {
          assert entries == EntryPrices(prefix) + [fill.price];
          assert entries[|entries| - 1] == fill.price;
          assert AllWithin(EntryPrices(prefix), lo, hi) by {
            assert forall i :: 0 <= i < |EntryPrices(prefix)| ==> EntryPrices(prefix)[i] == entries[i];
          }
          AverageWithinEntryPrices(prefix, lo, hi);
          BlendIsBetween(Abs(before.netQuantity), before.averageEntryPrice.value, fill.size, fill.price, lo, hi);
        } else if fill.size < Abs(before.netQuantity) {
          AverageWithinEntryPrices(prefix, lo, hi);
        } else {
          assert entries == [fill.price] && entries[0] == fill.price;
        }
      }
    }
  }

  lemma BlendTimesTotal(existing: real, average: real, incoming: real, price: real)
    requires existing + incoming != 0.0
    ensures Worth(existing + incoming, BlendedPrice(existing, average, incoming, price))
         == Worth(existing, average) + Worth(incoming, price)
  {
  }

  lemma WorthNegates(quantity: real, price: real)
    ensures Worth(-quantity, price) == -Worth(quantity, price)
    ensures Worth(0.0, price) == 0.0
  {
  }

  /** Cost of the open position at its average price. */
  function OpenCost(p: Position): real {
    Worth(p.netQuantity, p.averageEntryPrice.GetOr(0.0))
  }

  /** One fill: its cash flow is its gain minus the change in the cost of the open position. */
  lemma FillBalances(p: Position, fill: Fill)
    requires fill.size > 0.0 && (p.averageEntryPrice == None <==> p.netQuantity == 0.0)
    ensures var closed := Closed(p.netQuantity, Signed(fill));
      var gain := Worth(closed, fill.price) - Worth(closed, p.averageEntryPrice.GetOr(0.0));
      Worth(-Signed(fill), fill.price) == gain - (OpenCost(ApplyFill(p, fill)) - OpenCost(p))
  {
    hide Worth, BlendedPrice;
    var signed, net, price := Signed(fill), p.netQuantity, fill.price;
    var average := p.averageEntryPrice.GetOr(0.0);
    WorthNegates(signed, price);
    WorthNegates(net, average);
    WorthNegates(net, price);
    WorthNegates(0.0, price);
    WorthNegates(0.0, average);
    WorthNegates(0.0, 0.0);
    if Extends(p, fill) {
      BlendTimesTotal(Abs(net), average, fill.size, price);
      WorthNegates(Abs(net) + fill.size, ApplyFill(p, fill).averageEntryPrice.GetOr(0.0));
    } else {
      WorthNegates(signed, average);
      WorthSplits(net, signed, average);
      WorthSplits(net, signed, price);
    }
  }

  /** Money in minus money out equals the realised gain minus the cost of what is still open. */
  lemma {:induction false} CashFlowBalances(fills: seq<Fill>)
    requires PositiveSizes(fills)
    ensures TotalNotional(fills, Sell) - TotalNotional(fills, Buy) == RealizedGain(fills) - OpenCost(Replay(fills))
  {
    hide Worth, BlendedPrice, ApplyFill;
    WorthNegates(0.0, 0.0);
    if fills != [] {
      var prefix, fill := fills[..|fills| - 1], fills[|fills| - 1];
      CashFlowBalances(prefix);
      NetAndAverage(prefix);
      FillBalances(Replay(prefix), fill);
      WorthNegates(fill.size, fill.price);
    } else {
      assert OpenCost(EMPTY) == 0.0;
    }
  }

  // ---- The accumulator ----

  class PositionAccumulator {
    var executedBuyQuantity: real
    var executedSellQuantity: real
    var fillCount: nat
    var orderIds: set<string>
    var firstFilledAt: Option<int>
    var lastFilledAt: Option<int>
    var netQuantity: real
    var averageEntryPrice: Option<real>

    constructor ()
      ensures State() == EMPTY
    {
      executedBuyQuantity, executedSellQuantity, fillCount, orderIds := 0.0, 0.0, 0, {};
      firstFilledAt, lastFilledAt := None, None;
      netQuantity, averageEntryPrice := 0.0, None;
    }

    function State(): Position
      reads this
    {
      Position(executedBuyQuantity, executedSellQuantity, fillCount, orderIds, firstFilledAt, lastFilledAt,
               netQuantity, averageEntryPrice)
    }

    method ApplyFillToAccumulator(fill: Fill)
      modifies this
      ensures State() == ApplyFill(old(State()), fill)
    {
      hide BlendedPrice;
      CountFill(fill);
      MovePosition(fill);
    }

    method CountFill(fill: Fill)
      modifies this`executedBuyQuantity, this`executedSellQuantity, this`fillCount, this`orderIds,
               this`firstFilledAt, this`lastFilledAt
      ensures executedBuyQuantity == old(executedBuyQuantity) + if fill.side == Buy then fill.size else 0.0
      ensures executedSellQuantity == old(executedSellQuantity) + if fill.side == Sell then fill.size else 0.0
      ensures fillCount == old(fillCount) + 1 && orderIds == old(orderIds) + {fill.clientOrderId}
      ensures firstFilledAt == Earlier(old(firstFilledAt), fill.filledAt)
      ensures lastFilledAt == Later(old(lastFilledAt), fill.filledAt)
    {
      orderIds := orderIds + {fill.clientOrderId};
      if fill.side == Buy {
        executedBuyQuantity := executedBuyQuantity + fill.size;
      } else {
        executedSellQuantity := executedSellQuantity + fill.size;
      }
      fillCount := fillCount + 1;
      firstFilledAt := Earlier(firstFilledAt, fill.filledAt);
      lastFilledAt := Later(lastFilledAt, fill.filledAt);
    }

    method MovePosition(fill: Fill)
      modifies this`netQuantity, this`averageEntryPrice
      ensures var after := ApplyFill(old(State()), fill);
        netQuantity == after.netQuantity && averageEntryPrice == after.averageEntryPrice
    {
      hide BlendedPrice;
      var signed := Signed(fill);
      var existingAbs, incomingAbs := Abs(netQuantity), Abs(signed);
      if netQuantity == 0.0 || (netQuantity > 0.0) == SignedIsPositive(fill) {
        var average := averageEntryPrice.GetOr(0.0);
        netQuantity := netQuantity + signed;
        averageEntryPrice := if netQuantity == 0.0 then None
                             else Some(BlendedPrice(existingAbs, average, incomingAbs, fill.price));
        return;
      }
      netQuantity := netQuantity + signed;
      if incomingAbs < existingAbs {
        return;
      }
      averageEntryPrice := if netQuantity == 0.0 then None else Some(fill.price);
    }
  }

  // ---- One accumulator per market key ----

  /** `history` holds the same fills, oldest first, and fills of one moment in the order in which they were recorded. */
  ghost predicate IsTimeOrder(fills: seq<Fill>, history: seq<Fill>) {
    && (forall i, j :: 0 <= i < j < |history| ==> history[i].filledAt <= history[j].filledAt)
    && StableSort.IsTimeOrder(fills, history, (f: Fill) => f.filledAt)
  }

  function OfKey(fills: seq<Fill>, key: string): seq<Fill> {
    if fills == [] then []
    else OfKey(fills[..|fills| - 1], key) + if fills[|fills| - 1].key == key then [fills[|fills| - 1]] else []
  }

  function Keys(fills: seq<Fill>): set<string> {
    set i | 0 <= i < |fills| :: fills[i].key
  }

  /** The position a key ends up with. */
  function PositionOf(fills: seq<Fill>, key: string): Position {
    Replay(OfKey(fills, key))
  }

  lemma PositionAfterFill(fills: seq<Fill>, n: nat, key: string)
    requires n < |fills|
    ensures fills[n].key == key ==> PositionOf(fills[..n + 1], key) == ApplyFill(PositionOf(fills[..n], key), fills[n])
    ensures fills[n].key != key ==> PositionOf(fills[..n + 1], key) == PositionOf(fills[..n], key)
  {
    hide ApplyFill;
    assert fills[..n + 1][..n] == fills[..n];
    var longer := OfKey(fills[..n + 1], key);
    if fills[n].key == key {
      assert longer == OfKey(fills[..n], key) + [fills[n]];
      assert longer[..|longer| - 1] == OfKey(fills[..n], key);
    } else {
      assert longer == OfKey(fills[..n], key);
    }
  }

  lemma KeysExtend(fills: seq<Fill>, n: nat)
    requires n < |fills|
    ensures Keys(fills[..n + 1]) == Keys(fills[..n]) + {fills[n].key}
  {
  }

  lemma {:induction false} NoFillsOfKey(fills: seq<Fill>, key: string)
    requires key !in Keys(fills)
    ensures PositionOf(fills, key) == EMPTY
  {
    if fills != [] {
      assert fills[|fills| - 1].key != key;
      assert key !in Keys(fills[..|fills| - 1]) by {
        assert Keys(fills[..|fills| - 1]) <= Keys(fills);
      }
      NoFillsOfKey(fills[..|fills| - 1], key);
    }
  }

  ghost predicate Unshared(grouped: map<string, PositionAccumulator>) {
    forall j, k :: j in grouped && k in grouped && j != k ==> grouped[j] != grouped[k]
  }

  /** The map entry of a fill's key, created flat when it is new. */
  method AccumulatorFor(grouped: map<string, PositionAccumulator>, key: string)
    returns (updated: map<string, PositionAccumulator>)
    requires Unshared(grouped)
    ensures updated.Keys == grouped.Keys + {key} && Unshared(updated)
    ensures forall k :: k in grouped ==> updated[k] == grouped[k]
    ensures key !in grouped ==> fresh(updated[key]) && updated[key].State() == EMPTY
  {
    updated := grouped;
    if key !in grouped {
      var created := new PositionAccumulator();
      updated := grouped[key := created];
    }
  }

  /** Each key's accumulator replays exactly the fills of that key, in order. */
  method GroupFills(fills: seq<Fill>) returns (grouped: map<string, PositionAccumulator>)
    ensures grouped.Keys == Keys(fills) && Unshared(grouped)
    ensures forall key :: key in grouped ==> grouped[key].State() == PositionOf(fills, key)
    ensures forall key :: key in grouped ==> fresh(grouped[key])
  {
    hide ApplyFill, PositionOf, Keys;
    grouped := map[];
    KeysOfNothing();
    for n := 0 to |fills|
      invariant grouped.Keys == Keys(fills[..n]) && Unshared(grouped)
      invariant forall key :: key in grouped ==> fresh(grouped[key])
      invariant forall key :: key in grouped ==> grouped[key].State() == PositionOf(fills[..n], key)
    {
      if fills[n].key !in grouped { NoFillsOfKey(fills[..n], fills[n].key); }
      grouped := AccumulatorFor(grouped, fills[n].key);
      grouped[fills[n].key].ApplyFillToAccumulator(fills[n]);
      KeysExtend(fills, n);
      forall key | key in grouped
        ensures grouped[key].State() == PositionOf(fills[..n + 1], key)
      {
        PositionAfterFill(fills, n, key);
      }
    }
    assert fills[..|fills|] == fills;
  }

  lemma KeysOfNothing()
    ensures Keys([]) == {}
  {
  }

  method SortedByTime(fills: seq<Fill>) returns (history: seq<Fill>)
    ensures IsTimeOrder(fills, history)
  {
    history := StableSort.SortByTime(fills, (f: Fill) => f.filledAt);
    StableSort.SortedIsTimeOrder(fills, (f: Fill) => f.filledAt);
  }

  lemma TimeOrderIsUnique(fills: seq<Fill>, history: seq<Fill>, other: seq<Fill>)
    requires IsTimeOrder(fills, history) && IsTimeOrder(fills, other)
    ensures history == other
  {
    StableSort.TimeOrderIsUnique(fills, history, (f: Fill) => f.filledAt);
    StableSort.TimeOrderIsUnique(fills, other, (f: Fill) => f.filledAt);
  }

  /** The open positions: those of the fills in time order, grouped by key, flat ones dropped. */
  method BuildPositionState(fills: seq<Fill>) returns (positions: map<string, Position>)
    ensures forall history :: IsTimeOrder(fills, history) ==>
      && (forall key :: key in positions <==> PositionOf(history, key).netQuantity != 0.0)
      && (forall key :: key in positions ==> positions[key] == PositionOf(history, key))
    ensures exists history :: IsTimeOrder(fills, history)
  {
    hide PositionOf, IsTimeOrder;
    var history := SortedByTime(fills);
    var grouped := GroupFills(history);
    positions := map key | key in grouped && grouped[key].netQuantity != 0.0 :: grouped[key].State();
    forall key | key !in grouped
      ensures PositionOf(history, key).netQuantity == 0.0
    {
      NoFillsOfKey(history, key);
    }
    forall other | IsTimeOrder(fills, other)
      ensures other == history
    {
      TimeOrderIsUnique(fills, other, history);
    }
  }

  // ---- The other fields ----

  /** `t` is the least, or the greatest, of the fill times. */
  ghost predicate IsExtreme(fills: seq<Fill>, t: Option<int>, least: bool) {
    && (t == None <==> fills == [])
    && (t.Some? ==> exists i :: 0 <= i < |fills| && fills[i].filledAt == t.value)
    && (t.Some? ==> forall i :: 0 <= i < |fills| ==> if least then t.value <= fills[i].filledAt else fills[i].filledAt <= t.value)
  }

  /** Over any fills at all: the first and the last fill time, the number of fills, and the orders they came from. */
  lemma {:induction false} ReplayTells(fills: seq<Fill>)
    ensures var p := Replay(fills);
      && IsExtreme(fills, p.firstFilledAt, true) && IsExtreme(fills, p.lastFilledAt, false)
      && p.fillCount == |fills|
      && p.orderIds == OrderIds(fills)
  {
    hide Worth, BlendedPrice;
    if fills != [] {
      var front, fill := fills[..|fills| - 1], fills[|fills| - 1];
      ReplayTells(front);
      ExtremeExtends(front, fill);
      OrderIdsExtend(front, fill);
      assert fills == front + [fill];
      hide IsExtreme, OrderIds;
    }
  }

  function OrderIds(fills: seq<Fill>): set<string> {
    set i | 0 <= i < |fills| :: fills[i].clientOrderId
  }

  lemma OrderIdsExtend(front: seq<Fill>, fill: Fill)
    ensures OrderIds(front + [fill]) == OrderIds(front) + {fill.clientOrderId}
  {
    var fills := front + [fill];
    forall id | id in OrderIds(front) + {fill.clientOrderId}
      ensures id in OrderIds(fills)
    {
      if id in OrderIds(front) {
        var i :| 0 <= i < |front| && front[i].clientOrderId == id;
        assert fills[i] == front[i];
      } else {
        assert fills[|front|] == fill;
      }
    }
  }

  lemma ExtremeExtends(front: seq<Fill>, fill: Fill)
    ensures forall t :: IsExtreme(front, t, true) ==> IsExtreme(front + [fill], Earlier(t, fill.filledAt), true)
    ensures forall t :: IsExtreme(front, t, false) ==> IsExtreme(front + [fill], Later(t, fill.filledAt), false)
  {
    var fills := front + [fill];
    assert fills[|front|] == fill && forall i :: 0 <= i < |front| ==> fills[i] == front[i];
  }
}
