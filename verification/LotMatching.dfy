/**
 What FIFO, LIFO and average-cost matching mean, as functions of the trade history,
 and the conservation laws they obey.
 Quantities and prices are exact reals; only the dust threshold of the source is kept.
 */
module LotMatching {
  import opened Basics

  /** A lot whose remainder is not above this is dropped; a sell whose remainder is not above it stops. */
  const DUST: real := 0.00000001

  datatype Trade = Trade(side: Side, quantity: real, price: real, fee: real, time: int)
  datatype Lot = Lot(quantity: real, price: real)

  /** The fields the calculator fills in for one trade. */
  datatype TradeWithPnl = TradeWithPnl(
    trade: Trade,
    costBasis: Option<real>,
    realizedPnl: Option<real>,
    accumulatedPosition: Option<real>,
    averageEntryPrice: Option<real>)

  // ---- Totals ----

  function Quantity(lots: seq<Lot>): real {
    if lots == [] then 0.0 else Quantity(lots[..|lots| - 1]) + lots[|lots| - 1].quantity
  }

  function Value(lots: seq<Lot>): real {
    if lots == [] then 0.0
    else Value(lots[..|lots| - 1]) + Worth(lots[|lots| - 1].quantity, lots[|lots| - 1].price)
  }

  function TotalQuantity(trades: seq<Trade>, side: Side): real {
    if trades == [] then 0.0
    else
      var last := trades[|trades| - 1];
      TotalQuantity(trades[..|trades| - 1], side) + if last.side == side then last.quantity else 0.0
  }

  function TotalValue(trades: seq<Trade>, side: Side): real {
    if trades == [] then 0.0
    else
      var last := trades[|trades| - 1];
      TotalValue(trades[..|trades| - 1], side) + if last.side == side then Worth(last.quantity, last.price) else 0.0
  }

  /** One dust threshold for every sell. */
  function DustAllowance(trades: seq<Trade>): real {
    if trades == [] then 0.0
    else DustAllowance(trades[..|trades| - 1]) + if trades[|trades| - 1].side == Sell then DUST else 0.0
  }

  function CountSells(trades: seq<Trade>): nat {
    if trades == [] then 0
    else CountSells(trades[..|trades| - 1]) + if trades[|trades| - 1].side == Sell then 1 else 0
  }

  /** One dust threshold per sell, priced at `top`. */
  function DustSlack(trades: seq<Trade>, top: real): real {
    Worth(CountSells(trades) as real * DUST, top)
  }

  /** Realised profit before fees: the sum over the sell rows. */
  function Realized(rows: seq<TradeWithPnl>): real {
    if rows == [] then 0.0
    else
      var last := rows[|rows| - 1];
      Realized(rows[..|rows| - 1]) + if last.trade.side == Sell then last.realizedPnl.GetOr(0.0) else 0.0
  }

  ghost predicate NonNegative(trades: seq<Trade>) {
    forall i :: 0 <= i < |trades| ==> trades[i].quantity >= 0.0 && trades[i].price >= 0.0
  }

  /** No prefix of the history sells more than it has bought. */
  ghost predicate NeverOversells(trades: seq<Trade>) {
    forall n :: 0 <= n <= |trades| ==> TotalQuantity(trades[..n], Sell) <= TotalQuantity(trades[..n], Buy)
  }

  ghost predicate BuyPricesAtMost(trades: seq<Trade>, top: real) {
    forall i :: 0 <= i < |trades| && trades[i].side == Buy ==> trades[i].price <= top
  }

  // ---- Matching one sell against the open lots ----

  datatype Discipline = Fifo | Lifo

  /** The outcome of matching: `dust` and `dustQuantity` are what dropped lots still held. */
  datatype Match = Match(
    lots: seq<Lot>,
    cost: real,
    unmatched: real,
    dust: real,
    dustQuantity: real,
    droppedPrices: real)

  function Pick(d: Discipline, lots: seq<Lot>): (i: nat)
    requires lots != []
    ensures i < |lots|
  {
    if d == Fifo then 0 else |lots| - 1
  }

  function Without(lots: seq<Lot>, i: nat): (r: seq<Lot>)
    requires i < |lots|
    ensures |r| == |lots| - 1
  {
    lots[..i] + lots[i + 1..]
  }

  function MatchSell(d: Discipline, remaining: real, lots: seq<Lot>): Match
    decreases |lots|, if remaining > DUST then 1 else 0
  {
    if remaining <= DUST || lots == [] then Match(lots, 0.0, remaining, 0.0, 0.0, 0.0)
    else
      var i := Pick(d, lots);
      var lot := lots[i];
      var matched := Min(remaining, lot.quantity);
      var left := lot.quantity - matched;
      var paid := Worth(matched, lot.price);
      if left <= DUST then
        var m := MatchSell(d, remaining - matched, Without(lots, i));
        m.(cost := m.cost + paid,
           dust := m.dust + Worth(left, lot.price),
           dustQuantity := m.dustQuantity + left,
           droppedPrices := m.droppedPrices + lot.price)
      else
        var m := MatchSell(d, remaining - matched, lots[i := lot.(quantity := left)]);
        m.(cost := m.cost + paid)
  }

  // ---- Whole runs ----

  /** Everything a run has produced; the last four fields are bookkeeping for the laws below. */
  datatype Ledger = Ledger(
    rows: seq<TradeWithPnl>,
    lots: seq<Lot>,
    charged: real,
    dust: real,
    dustQuantity: real,
    unmatched: real,
    droppedPrices: real)

  function LotStep(d: Discipline, before: Ledger, t: Trade): Ledger {
    if t.side == Buy then
      var lots := before.lots + [Lot(t.quantity, t.price)];
      before.(rows := before.rows + [TradeWithPnl(t, Some(Worth(t.quantity, t.price)), None, Some(Quantity(lots)), None)],
              lots := lots)
    else
      var m := MatchSell(d, t.quantity, before.lots);
      var pnl := Worth(t.quantity, t.price) - m.cost;
      Ledger(
        before.rows + [TradeWithPnl(t, Some(m.cost), Some(pnl), Some(Quantity(m.lots)), None)],
        m.lots,
        before.charged + m.cost,
        before.dust + m.dust,
        before.dustQuantity + m.dustQuantity,
        before.unmatched + m.unmatched,
        before.droppedPrices + m.droppedPrices)
  }

  function RunLots(d: Discipline, trades: seq<Trade>): Ledger {
    if trades == [] then Ledger([], [], 0.0, 0.0, 0.0, 0.0, 0.0)
    else LotStep(d, RunLots(d, trades[..|trades| - 1]), trades[|trades| - 1])
  }

  datatype AverageLedger = AverageLedger(rows: seq<TradeWithPnl>, totalQuantity: real, totalCost: real)

  function AverageStep(before: AverageLedger, t: Trade): AverageLedger {
    var quantity := before.totalQuantity;
    if t.side == Buy then
      var cost := before.totalCost + Worth(t.quantity, t.price);
      var avg := if quantity + t.quantity > 0.0 then cost / (quantity + t.quantity) else 0.0;
      AverageLedger(
        before.rows + [TradeWithPnl(t, Some(Worth(t.quantity, t.price)), None, Some(quantity + t.quantity), Some(avg))],
        quantity + t.quantity,
        cost)
    else
      var avg := if quantity > 0.0 then before.totalCost / quantity else 0.0;
      var basis := Worth(t.quantity, avg);
      AverageLedger(
        before.rows
        + [TradeWithPnl(t, Some(basis), Some(Worth(t.quantity, t.price) - basis), Some(quantity - t.quantity), Some(avg))],
        quantity - t.quantity,
        before.totalCost - basis)
  }

  function RunAverage(trades: seq<Trade>): AverageLedger {
    if trades == [] then AverageLedger([], 0.0, 0.0)
    else AverageStep(RunAverage(trades[..|trades| - 1]), trades[|trades| - 1])
  }

  // ---- Sums over lots ----

  lemma {:induction false} TotalsAppend(a: seq<Lot>, b: seq<Lot>)
    ensures Value(a + b) == Value(a) + Value(b)
    ensures Quantity(a + b) == Quantity(a) + Quantity(b)
  {
    hide Worth;
    if b == [] {
      assert a + b == a;
    } else {
      assert (a + b)[..|a + b| - 1] == a + b[..|b| - 1];
      TotalsAppend(a, b[..|b| - 1]);
    }
  }

  lemma NoLots()
    ensures Value([]) == 0.0 && Quantity([]) == 0.0
  {
  }

  lemma TotalsSingle(lot: Lot)
    ensures Value([lot]) == Worth(lot.quantity, lot.price)
    ensures Quantity([lot]) == lot.quantity
  {
    assert [lot][..0] == [];
  }

  lemma TotalsInsert(a: seq<Lot>, lot: Lot, b: seq<Lot>)
    ensures Value(a + ([lot] + b)) == Value(a + b) + Worth(lot.quantity, lot.price)
    ensures Quantity(a + ([lot] + b)) == Quantity(a + b) + lot.quantity
  {
    hide Worth, Value, Quantity;
    TotalsAppend(a, [lot] + b);
    TotalsAppend([lot], b);
    TotalsAppend(a, b);
    TotalsSingle(lot);
  }

  lemma Reassembled(lots: seq<Lot>, i: nat)
    requires i < |lots|
    ensures lots == lots[..i] + ([lots[i]] + lots[i + 1..])
  {
  }

  lemma TotalsSplit(lots: seq<Lot>, i: nat)
    requires i < |lots|
    ensures Value(lots) == Value(Without(lots, i)) + Worth(lots[i].quantity, lots[i].price)
    ensures Quantity(lots) == Quantity(Without(lots, i)) + lots[i].quantity
  {
    hide Worth, Value, Quantity;
    Reassembled(lots, i);
    TotalsInsert(lots[..i], lots[i], lots[i + 1..]);
  }

  lemma TotalsReplace(lots: seq<Lot>, i: nat, lot: Lot)
    requires i < |lots|
    ensures Value(lots[i := lot])
         == Value(lots) - Worth(lots[i].quantity, lots[i].price) + Worth(lot.quantity, lot.price)
    ensures Quantity(lots[i := lot]) == Quantity(lots) - lots[i].quantity + lot.quantity
  {
    hide Worth, Value, Quantity;
    TotalsSplit(lots, i);
    TotalsSplit(lots[i := lot], i);
    assert Without(lots[i := lot], i) == Without(lots, i);
  }

  // ---- Laws of one match ----

  /** No value and no quantity appears or disappears, whatever the signs of the inputs. */
  lemma {:induction false} MatchConserves(d: Discipline, remaining: real, lots: seq<Lot>)
    ensures var m := MatchSell(d, remaining, lots);
      && m.cost + Value(m.lots) + m.dust == Value(lots)
      && (remaining - m.unmatched) + Quantity(m.lots) + m.dustQuantity == Quantity(lots)
    decreases |lots|, if remaining > DUST then 1 else 0
  {
    hide Worth, Value, Quantity;
    if remaining <= DUST || lots == [] {
    } else {
      var i := Pick(d, lots);
      var lot := lots[i];
      var matched := Min(remaining, lot.quantity);
      var left := lot.quantity - matched;
      WorthSplits(matched, left, lot.price);
      if left <= DUST {
        TotalsSplit(lots, i);
        MatchConserves(d, remaining - matched, Without(lots, i));
      } else {
        TotalsReplace(lots, i, lot.(quantity := left));
        MatchConserves(d, remaining - matched, lots[i := lot.(quantity := left)]);
      }
    }
  }

  ghost predicate LotsWithin(lots: seq<Lot>, top: real) {
    forall i :: 0 <= i < |lots| ==> lots[i].quantity >= 0.0 && 0.0 <= lots[i].price <= top
  }

  lemma ChangingWithin(lots: seq<Lot>, i: nat, left: real, top: real)
    requires LotsWithin(lots, top) && i < |lots|
    ensures lots[i].quantity >= 0.0 && 0.0 <= lots[i].price <= top
    ensures LotsWithin(Without(lots, i), top)
    ensures left >= 0.0 ==> LotsWithin(lots[i := lots[i].(quantity := left)], top)
  {
  }

  /**
   What one match may leave behind: lots stay non-negative; at most one dust remainder is dropped in
   total, and then the sell is fully matched; a sell larger than dust is only left unmatched when no lot is left.
   */
  lemma {:induction false} MatchBounds(d: Discipline, remaining: real, lots: seq<Lot>, top: real)
    requires LotsWithin(lots, top) && remaining >= 0.0
    ensures var m := MatchSell(d, remaining, lots);
      && LotsWithin(m.lots, top)
      && 0.0 <= m.dustQuantity <= DUST
      && 0.0 <= m.unmatched <= remaining
      && (m.dustQuantity > 0.0 ==> m.unmatched == 0.0)
      && (m.unmatched > DUST ==> m.lots == [])
    decreases |lots|, if remaining > DUST then 1 else 0
  {
    hide Worth, LotsWithin, Without;
    if remaining <= DUST || lots == [] {
    } else {
      var i := Pick(d, lots);
      var lot := lots[i];
      var matched := Min(remaining, lot.quantity);
      var left := lot.quantity - matched;
      ChangingWithin(lots, i, left, top);
      if left <= DUST {
        MatchBounds(d, remaining - matched, Without(lots, i), top);
      } else {
        MatchBounds(d, remaining - matched, lots[i := lot.(quantity := left)], top);
      }
    }
  }

  lemma {:induction false} MatchDustWorth(d: Discipline, remaining: real, lots: seq<Lot>, top: real)
    requires LotsWithin(lots, top)
    ensures var m := MatchSell(d, remaining, lots); m.dust <= Worth(m.dustQuantity, top)
    decreases |lots|, if remaining > DUST then 1 else 0
  {
    hide Worth, LotsWithin, Without;
    if remaining <= DUST || lots == [] {
      assert Worth(0.0, top) == 0.0 by { WorthSplits(0.0, 0.0, top); }
    } else {
      var i := Pick(d, lots);
      var lot := lots[i];
      var matched := Min(remaining, lot.quantity);
      var left := lot.quantity - matched;
      ChangingWithin(lots, i, left, top);
      if left <= DUST {
        var m := MatchSell(d, remaining - matched, Without(lots, i));
        WorthGrows(left, left, lot.price, top);
        WorthSplits(m.dustQuantity, left, top);
        MatchDustWorth(d, remaining - matched, Without(lots, i), top);
      } else {
        MatchDustWorth(d, remaining - matched, lots[i := lot.(quantity := left)], top);
      }
    }
  }

  ghost predicate QuantitiesNonNegative(lots: seq<Lot>) {
    forall i :: 0 <= i < |lots| ==> lots[i].quantity >= 0.0
  }

  ghost predicate PricesNonNegative(lots: seq<Lot>) {
    forall i :: 0 <= i < |lots| ==> lots[i].price >= 0.0
  }

  lemma ChangingOneLot(lots: seq<Lot>, i: nat, left: real)
    requires i < |lots|
    ensures PricesNonNegative(lots) ==> lots[i].price >= 0.0
    ensures PricesNonNegative(lots) ==> PricesNonNegative(Without(lots, i))
    ensures PricesNonNegative(lots) ==> PricesNonNegative(lots[i := lots[i].(quantity := left)])
    ensures QuantitiesNonNegative(lots) ==> lots[i].quantity >= 0.0
    ensures QuantitiesNonNegative(lots) ==> QuantitiesNonNegative(Without(lots, i))
    ensures QuantitiesNonNegative(lots) && left >= 0.0
            ==> QuantitiesNonNegative(lots[i := lots[i].(quantity := left)])
  {
  }

  /** Dropped dust is non-negative for any quantities at all, since a lot is never matched beyond its size. */
  lemma {:induction false} MatchDust(d: Discipline, remaining: real, lots: seq<Lot>)
    requires PricesNonNegative(lots)
    ensures var m := MatchSell(d, remaining, lots);
      && 0.0 <= m.dust <= Worth(DUST, m.droppedPrices)
      && PricesNonNegative(m.lots)
    decreases |lots|, if remaining > DUST then 1 else 0
  {
    hide Worth, PricesNonNegative, QuantitiesNonNegative, Without;
    assert Worth(DUST, 0.0) == 0.0 by { WorthSplitsPrice(DUST, 0.0, 0.0); }
    if remaining <= DUST || lots == [] {
    } else {
      var i := Pick(d, lots);
      var lot := lots[i];
      var matched := Min(remaining, lot.quantity);
      var left := lot.quantity - matched;
      ChangingOneLot(lots, i, left);
      if left <= DUST {
        WorthGrows(left, DUST, lot.price, lot.price);
        var m := MatchSell(d, remaining - matched, Without(lots, i));
        WorthSplitsPrice(DUST, m.droppedPrices, lot.price);
        MatchDust(d, remaining - matched, Without(lots, i));
      } else {
        MatchDust(d, remaining - matched, lots[i := lot.(quantity := left)]);
      }
    }
  }

  lemma {:induction false} MatchKeepsQuantities(d: Discipline, remaining: real, lots: seq<Lot>)
    requires QuantitiesNonNegative(lots)
    ensures QuantitiesNonNegative(MatchSell(d, remaining, lots).lots)
    decreases |lots|, if remaining > DUST then 1 else 0
  {
    hide Worth, QuantitiesNonNegative, Without;
    if remaining <= DUST || lots == [] {
    } else {
      var i := Pick(d, lots);
      var matched := Min(remaining, lots[i].quantity);
      var left := lots[i].quantity - matched;
      ChangingOneLot(lots, i, left);
      if left <= DUST {
        MatchKeepsQuantities(d, remaining - matched, Without(lots, i));
      } else {
        MatchKeepsQuantities(d, remaining - matched, lots[i := lots[i].(quantity := left)]);
      }
    }
  }

  /** What is left of a lot is dropped exactly when it is at most 1e-8, and a sell of at most 1e-8 is not matched. */
  lemma DustThreshold(d: Discipline, lot: Lot, sold: real)
    requires 0.00000001 < sold < lot.quantity
    ensures MatchSell(d, sold, [lot]).lots == (if lot.quantity - sold <= 0.00000001 then [] else [Lot(lot.quantity - sold, lot.price)])
    ensures MatchSell(d, 0.00000001, [lot]) == Match([lot], 0.0, 0.00000001, 0.0, 0.0, 0.0)
  {
    var left := Lot(lot.quantity - sold, lot.price);
    assert [lot][0 := left] == [left];
    assert MatchSell(d, 0.0, [left]) == Match([left], 0.0, 0.0, 0.0, 0.0, 0.0);
    assert MatchSell(d, 0.0, []) == Match([], 0.0, 0.0, 0.0, 0.0, 0.0);
  }

  // ---- What the discipline charges: the cost curve ----

  /** Open lots in the order in which the discipline consumes them. */
  function InOrder(d: Discipline, lots: seq<Lot>): (r: seq<Lot>)
    ensures |r| == |lots|
  {
    if d == Fifo then lots else seq(|lots|, i requires 0 <= i < |lots| => lots[|lots| - 1 - i])
  }

  /** Price of the first `x` units of `line`: the reference definition, without loops, dust or partial lots. */
  function CostOfFirst(line: seq<Lot>, x: real): real {
    if line == [] || x <= 0.0 then 0.0
    else if x <= line[0].quantity then Worth(x, line[0].price)
    else Worth(line[0].quantity, line[0].price) + CostOfFirst(line[1..], x - line[0].quantity)
  }

  lemma InOrderSteps(d: Discipline, lots: seq<Lot>, lot: Lot)
    requires lots != []
    ensures InOrder(d, lots)[0] == lots[Pick(d, lots)]
    ensures InOrder(d, Without(lots, Pick(d, lots))) == InOrder(d, lots)[1..]
    ensures InOrder(d, lots[Pick(d, lots) := lot]) == [lot] + InOrder(d, lots)[1..]
  {
  }

  lemma FrontOfLine(line: seq<Lot>, x: real)
    requires line != [] && line[0].quantity >= 0.0 && x >= line[0].quantity
    ensures CostOfFirst(line, x)
         == Worth(line[0].quantity, line[0].price) + CostOfFirst(line[1..], x - line[0].quantity)
  {
    assert CostOfFirst(line[1..], 0.0) == 0.0;
  }

  lemma CutWithinFirst(line: seq<Lot>, cut: real, x: real)
    requires line != [] && 0.0 < cut < line[0].quantity && x >= 0.0
    ensures CostOfFirst([line[0].(quantity := line[0].quantity - cut)] + line[1..], x)
         == CostOfFirst(line, cut + x) - Worth(cut, line[0].price)
  {
    hide Worth;
    WorthSplits(cut, x, line[0].price);
    WorthSplits(cut, line[0].quantity - cut, line[0].price);
    assert Worth(0.0, line[0].price) == 0.0 by { WorthSplits(0.0, 0.0, line[0].price); }
    assert ([line[0].(quantity := line[0].quantity - cut)] + line[1..])[1..] == line[1..];
  }

  /**
   A sell is charged exactly the price of the first matched units in consumption order, and the lots it
   leaves behave as the line with the matched and the dropped units cut off its front.
   */
  lemma {:induction false} MatchChargesTheFront(d: Discipline, remaining: real, lots: seq<Lot>, x: real)
    requires remaining >= 0.0 && x >= 0.0
    requires QuantitiesNonNegative(lots)
    ensures var m := MatchSell(d, remaining, lots);
      var line := InOrder(d, lots);
      var cut := remaining - m.unmatched;
      && cut >= 0.0 && m.dustQuantity >= 0.0
      && m.cost == CostOfFirst(line, cut)
      && CostOfFirst(InOrder(d, m.lots), x) == CostOfFirst(line, cut + m.dustQuantity + x) - m.cost - m.dust
    decreases |lots|, if remaining > DUST then 1 else 0
  {
    hide Worth, CostOfFirst, InOrder, QuantitiesNonNegative, Without;
    if remaining <= DUST || lots == [] {
      NothingCut(InOrder(d, lots));
    } else {
      var i := Pick(d, lots);
      var lot := lots[i];
      var line := InOrder(d, lots);
      var matched := Min(remaining, lot.quantity);
      var left := lot.quantity - matched;
      InOrderSteps(d, lots, lot.(quantity := left));
      WorthSplits(matched, left, lot.price);
      ChangingOneLot(lots, i, left);
      if left <= DUST {
        var rest := Without(lots, i);
        MatchChargesTheFront(d, remaining - matched, rest, x);
        var m := MatchSell(d, remaining - matched, rest);
        FrontOfLine(line, lot.quantity + (remaining - matched - m.unmatched) + m.dustQuantity + x);
        if matched < lot.quantity {
          NothingCut(InOrder(d, rest));
          CostInsideFirst(line, matched);
        } else {
          FrontOfLine(line, lot.quantity + (remaining - matched - m.unmatched));
          assert Worth(0.0, lot.price) == 0.0 by { WorthSplits(0.0, 0.0, lot.price); }
        }
      } else {
        var rest := lots[i := lot.(quantity := left)];
        MatchChargesTheFront(d, 0.0, rest, x);
        CutWithinFirst(line, matched, x);
        CostInsideFirst(line, matched);
        NothingCut(InOrder(d, rest));
      }
    }
  }

  lemma NothingCut(line: seq<Lot>)
    ensures CostOfFirst(line, 0.0) == 0.0
  {
  }

  lemma EmptyCurve(line: seq<Lot>, x: real)
    requires line == [] || x <= 0.0
    ensures CostOfFirst(line, x) == 0.0
  {
  }

  lemma CostInsideFirst(line: seq<Lot>, x: real)
    requires line != [] && 0.0 < x <= line[0].quantity
    ensures CostOfFirst(line, x) == Worth(x, line[0].price)
  {
  }

  // ---- Laws of whole runs ----

  /** At every point of a run, overselling included: charged plus queued plus dropped is what was bought. */
  lemma {:induction false} LedgerConserves(d: Discipline, trades: seq<Trade>)
    ensures var l := RunLots(d, trades);
      && l.charged + Value(l.lots) + l.dust == TotalValue(trades, Buy)
      && Realized(l.rows) == TotalValue(trades, Sell) - l.charged
      && (TotalQuantity(trades, Sell) - l.unmatched) + Quantity(l.lots) + l.dustQuantity
         == TotalQuantity(trades, Buy)
  {
    hide Worth, Value, Quantity, MatchSell;
    if trades != [] {
      var prefix, t := trades[..|trades| - 1], trades[|trades| - 1];
      var before := RunLots(d, prefix);
      LedgerConserves(d, prefix);
      assert RunLots(d, trades).rows[..|RunLots(d, trades).rows| - 1] == before.rows;
      if t.side == Buy {
        TotalsAppend(before.lots, [Lot(t.quantity, t.price)]);
        TotalsSingle(Lot(t.quantity, t.price));
      } else {
        MatchConserves(d, t.quantity, before.lots);
      }
    } else {
      NoLots();
    }
  }

  /** Every lot ever bought, oldest first. */
  function Bought(trades: seq<Trade>): seq<Lot> {
    if trades == [] then []
    else
      var last := trades[|trades| - 1];
      Bought(trades[..|trades| - 1]) + if last.side == Buy then [Lot(last.quantity, last.price)] else []
  }

  /** Units a run has taken off the lots, matched or dropped. */
  function Consumed(d: Discipline, trades: seq<Trade>): real {
    TotalQuantity(trades, Sell) - RunLots(d, trades).unmatched + RunLots(d, trades).dustQuantity
  }

  lemma {:induction false} CurveOfConcatenation(a: seq<Lot>, b: seq<Lot>, x: real)
    requires QuantitiesNonNegative(a)
    ensures CostOfFirst(a + b, x) == CostOfFirst(a, x) + CostOfFirst(b, x - Quantity(a))
    ensures Quantity(a) >= 0.0
  {
    hide Worth, Quantity;
    if a == [] {
      NoLots();
      assert a + b == b;
    } else {
      assert a == [a[0]] + a[1..];
      TotalsAppend([a[0]], a[1..]);
      TotalsSingle(a[0]);
      assert (a + b)[1..] == a[1..] + b;
      CurveOfConcatenation(a[1..], b, x - a[0].quantity);
      if x == a[0].quantity { NothingCut(a[1..]); }
    }
  }

  /** Seen through the cost curve, `lots` is `line` with its first `consumed` units cut off, at `x` units. */
  ghost predicate IsRestOf(lots: seq<Lot>, line: seq<Lot>, consumed: real, x: real) {
    CostOfFirst(lots, x) == CostOfFirst(line, consumed + x) - CostOfFirst(line, consumed)
  }

  lemma BuyExtendsBoth(lots: seq<Lot>, line: seq<Lot>, consumed: real, lot: Lot, x: real)
    requires QuantitiesNonNegative(lots) && QuantitiesNonNegative(line)
    requires Quantity(lots) == Quantity(line) - consumed
    requires IsRestOf(lots, line, consumed, x)
    ensures IsRestOf(lots + [lot], line + [lot], consumed, x)
  {
    hide Worth, CostOfFirst, Quantity;
    CurveOfConcatenation(lots, [lot], x);
    CurveOfConcatenation(line, [lot], consumed + x);
    CurveOfConcatenation(line, [lot], consumed);
    EmptyCurve([lot], consumed - Quantity(line));
  }

  lemma SellCutsBoth(lots: seq<Lot>, line: seq<Lot>, consumed: real, remaining: real, cut: real, x: real)
    requires QuantitiesNonNegative(lots) && remaining >= 0.0 && x >= 0.0
    requires var m := MatchSell(Fifo, remaining, lots); cut == remaining - m.unmatched + m.dustQuantity
    requires IsRestOf(lots, line, consumed, cut + x) && IsRestOf(lots, line, consumed, cut)
    ensures IsRestOf(MatchSell(Fifo, remaining, lots).lots, line, consumed + cut, x)
  {
    hide Worth, CostOfFirst, MatchSell;
    MatchChargesTheFront(Fifo, remaining, lots, x);
    MatchChargesTheFront(Fifo, remaining, lots, 0.0);
    NothingCut(MatchSell(Fifo, remaining, lots).lots);
    assert consumed + cut + x == consumed + (cut + x);
  }

  lemma RunUnfolds(d: Discipline, trades: seq<Trade>)
    requires trades != []
    ensures var prefix, t := trades[..|trades| - 1], trades[|trades| - 1];
      var before, after := RunLots(d, prefix), RunLots(d, trades);
      && after == LotStep(d, before, t)
      && (t.side == Buy ==> Consumed(d, trades) == Consumed(d, prefix))
      && (t.side == Buy ==> Bought(trades) == Bought(prefix) + [Lot(t.quantity, t.price)])
      && (t.side == Buy ==> TotalQuantity(trades, Buy) == TotalQuantity(prefix, Buy) + t.quantity)
      && (t.side == Sell ==>
            var m := MatchSell(d, t.quantity, before.lots);
            Consumed(d, trades) == Consumed(d, prefix) + (t.quantity - m.unmatched + m.dustQuantity))
      && (t.side == Sell ==> Bought(trades) == Bought(prefix))
      && (t.side == Sell ==> TotalQuantity(trades, Buy) == TotalQuantity(prefix, Buy))
  {
    hide Worth, MatchSell;
  }

  lemma QuantityLeft(d: Discipline, trades: seq<Trade>)
    ensures Quantity(RunLots(d, trades).lots) == TotalQuantity(trades, Buy) - Consumed(d, trades)
  {
    hide Worth, Quantity, RunLots, TotalQuantity;
    LedgerConserves(d, trades);
  }

  lemma FifoHoldsAtStart(x: real)
    ensures FifoHolds([], x)
  {
    EmptyCurve([], x);
    EmptyCurve([], 0.0);
  }

  lemma FifoAfterBuy(trades: seq<Trade>, x: real)
    requires trades != [] && trades[|trades| - 1].side == Buy && trades[|trades| - 1].quantity >= 0.0
    requires FifoHolds(trades[..|trades| - 1], x)
    ensures FifoHolds(trades, x)
  {
    hide Worth, CostOfFirst, Quantity, MatchSell, RunLots, Bought, Consumed, TotalQuantity, IsRestOf;
    var prefix, t := trades[..|trades| - 1], trades[|trades| - 1];
    var lot := Lot(t.quantity, t.price);
    RunUnfolds(Fifo, trades);
    QuantityLeft(Fifo, prefix);
    BuyExtendsBoth(RunLots(Fifo, prefix).lots, Bought(prefix), Consumed(Fifo, prefix), lot, x);
    TotalsAppend(Bought(prefix), [lot]);
    TotalsSingle(lot);
  }

  lemma FifoAfterSell(trades: seq<Trade>, cut: real, x: real)
    requires trades != [] && trades[|trades| - 1].side == Sell && trades[|trades| - 1].quantity >= 0.0 && x >= 0.0
    requires FifoHolds(trades[..|trades| - 1], cut + x) && FifoHolds(trades[..|trades| - 1], cut)
    requires var m := MatchSell(Fifo, trades[|trades| - 1].quantity, RunLots(Fifo, trades[..|trades| - 1]).lots);
      cut == trades[|trades| - 1].quantity - m.unmatched + m.dustQuantity
    ensures FifoHolds(trades, x)
  {
    hide Worth, CostOfFirst, Quantity, MatchSell, RunLots, Bought, Consumed, TotalQuantity, IsRestOf;
    var prefix, t := trades[..|trades| - 1], trades[|trades| - 1];
    var lots := RunLots(Fifo, prefix).lots;
    RunUnfolds(Fifo, trades);
    MatchKeepsQuantities(Fifo, t.quantity, lots);
    MatchChargesTheFront(Fifo, t.quantity, lots, 0.0);
    SellCutsBoth(lots, Bought(prefix), Consumed(Fifo, prefix), t.quantity, cut, x);
  }

  /** The open lots are the purchase history with the consumed units cut off its oldest end. */
  ghost predicate FifoHolds(trades: seq<Trade>, x: real) {
    && IsRestOf(RunLots(Fifo, trades).lots, Bought(trades), Consumed(Fifo, trades), x)
    && Consumed(Fifo, trades) >= 0.0
    && QuantitiesNonNegative(RunLots(Fifo, trades).lots)
    && QuantitiesNonNegative(Bought(trades))
    && Quantity(Bought(trades)) == TotalQuantity(trades, Buy)
  }

  /** FIFO consumes the oldest units first over every run, partial fills, dust and overselling included. */
  lemma {:induction false} FifoConsumesOldestFirst(trades: seq<Trade>, x: real)
    requires NonNegative(trades) && x >= 0.0
    ensures FifoHolds(trades, x)
  {
    hide FifoHolds, MatchSell, RunLots;
    if trades == [] {
      FifoHoldsAtStart(x);
    } else {
      var prefix, t := trades[..|trades| - 1], trades[|trades| - 1];
      if t.side == Buy {
        FifoConsumesOldestFirst(prefix, x);
        FifoAfterBuy(trades, x);
      } else {
        var lots := RunLots(Fifo, prefix).lots;
        var m := MatchSell(Fifo, t.quantity, lots);
        var cut := t.quantity - m.unmatched + m.dustQuantity;
        LedgerKeepsQuantities(Fifo, prefix);
        CutIsNonNegative(prefix, t.quantity);
        FifoConsumesOldestFirst(prefix, cut + x);
        FifoConsumesOldestFirst(prefix, cut);
        FifoAfterSell(trades, cut, x);
      }
    }
  }

  lemma CutIsNonNegative(prefix: seq<Trade>, quantity: real)
    requires QuantitiesNonNegative(RunLots(Fifo, prefix).lots) && quantity >= 0.0
    ensures var m := MatchSell(Fifo, quantity, RunLots(Fifo, prefix).lots);
      quantity - m.unmatched + m.dustQuantity >= 0.0
  {
    hide MatchSell, RunLots;
    MatchChargesTheFront(Fifo, quantity, RunLots(Fifo, prefix).lots, 0.0);
  }

  /** So a FIFO sell is charged the slice of the purchase history that starts where earlier consumption ended. */
  lemma FifoChargesOldestUnits(prefix: seq<Trade>, quantity: real)
    requires NonNegative(prefix) && quantity >= 0.0
    ensures var m := MatchSell(Fifo, quantity, RunLots(Fifo, prefix).lots);
      var start := Consumed(Fifo, prefix);
      m.cost == CostOfFirst(Bought(prefix), start + (quantity - m.unmatched)) - CostOfFirst(Bought(prefix), start)
  {
    hide MatchSell, RunLots, Consumed, Bought, CostOfFirst;
    var lots := RunLots(Fifo, prefix).lots;
    FifoConsumesOldestFirst(prefix, 0.0);
    MatchChargesTheFront(Fifo, quantity, lots, 0.0);
    FifoConsumesOldestFirst(prefix, quantity - MatchSell(Fifo, quantity, lots).unmatched);
  }

  // ---- LIFO as a stack of purchases ----

  /** Units held after a LIFO run: bought, less matched and dropped. */
  function Held(trades: seq<Trade>): real {
    TotalQuantity(trades, Buy) - Consumed(Lifo, trades)
  }

  /**
   Price of the lowest `y` units of the stack of purchases: the unit at a given height belongs to the last purchase
   that lifted the holding through that height. Of the run itself only the total held after each trade is used.
   */
  function CostOfLowest(trades: seq<Trade>, y: real): real {
    if trades == [] then 0.0
    else
      var prefix, last := trades[..|trades| - 1], trades[|trades| - 1];
      if y <= Held(prefix) || last.side == Sell then CostOfLowest(prefix, y)
      else CostOfLowest(prefix, Held(prefix)) + Worth(y - Held(prefix), last.price)
  }

  lemma {:induction false} CurveSaturates(lots: seq<Lot>, x: real)
    requires QuantitiesNonNegative(lots) && x >= Quantity(lots)
    ensures CostOfFirst(lots, x) == Value(lots)
  {
    hide Worth, Quantity, Value;
    NoLots();
    if lots != [] {
      assert lots == [lots[0]] + lots[1..];
      TotalsAppend([lots[0]], lots[1..]);
      TotalsSingle(lots[0]);
      CurveOfConcatenation(lots[1..], [], 0.0);
      FrontOfLine(lots, x);
      CurveSaturates(lots[1..], x - lots[0].quantity);
    }
  }

  /** Shrinking or removing the top lot leaves the cost of what lies below untouched. */
  lemma TopDoesNotMatter(below: seq<Lot>, top: Lot, left: real, y: real)
    requires QuantitiesNonNegative(below) && 0.0 <= left <= top.quantity
    ensures y <= Quantity(below) ==> CostOfFirst(below + [top], y) == CostOfFirst(below, y)
    ensures y <= Quantity(below) + left
            ==> CostOfFirst(below + [top.(quantity := left)], y) == CostOfFirst(below + [top], y)
  {
    hide Worth, Quantity;
    CurveOfConcatenation(below, [top], y);
    CurveOfConcatenation(below, [top.(quantity := left)], y);
  }

  lemma TakingTheTop(lots: seq<Lot>, left: real)
    requires lots != []
    ensures var last := |lots| - 1;
      && Pick(Lifo, lots) == last
      && Without(lots, last) == lots[..last]
      && lots == lots[..last] + [lots[last]]
      && lots[last := lots[last].(quantity := left)] == lots[..last] + [lots[last].(quantity := left)]
  {
  }

  /** A LIFO sell leaves the lowest units, up to the quantity that remains, exactly as they were. */
  lemma {:induction false} LifoKeepsLowest(remaining: real, lots: seq<Lot>, y: real)
    requires QuantitiesNonNegative(lots)
    requires y <= Quantity(MatchSell(Lifo, remaining, lots).lots)
    ensures CostOfFirst(MatchSell(Lifo, remaining, lots).lots, y) == CostOfFirst(lots, y)
    ensures Quantity(MatchSell(Lifo, remaining, lots).lots) <= Quantity(lots)
    decreases |lots|, if remaining > DUST then 1 else 0
  {
    hide Worth, Quantity, CostOfFirst, QuantitiesNonNegative, Without;
    if remaining <= DUST || lots == [] {
    } else {
      var i := Pick(Lifo, lots);
      var lot := lots[i];
      var matched := Min(remaining, lot.quantity);
      var left := lot.quantity - matched;
      TakingTheTop(lots, left);
      ChangingOneLot(lots, i, left);
      TotalsAppend(lots[..i], [lot]);
      TotalsSingle(lot);
      TotalsSingle(lot.(quantity := left));
      TopDoesNotMatter(lots[..i], lot, left, y);
      if left <= DUST {
        LifoKeepsLowest(remaining - matched, Without(lots, i), y);
      } else {
        TotalsAppend(lots[..i], [lot.(quantity := left)]);
        LifoKeepsLowest(remaining - matched, lots[i := lot.(quantity := left)], y);
      }
    }
  }

  lemma LifoHoldsAtStart(y: real)
    ensures CostOfFirst(RunLots(Lifo, []).lots, y) == CostOfLowest([], y)
  {
    EmptyCurve([], y);
  }

  lemma LifoAfterBuy(trades: seq<Trade>, y: real)
    requires trades != [] && trades[|trades| - 1].side == Buy
    requires var prefix := trades[..|trades| - 1];
      && QuantitiesNonNegative(RunLots(Lifo, prefix).lots)
      && y <= Held(trades)
      && CostOfFirst(RunLots(Lifo, prefix).lots, Min(y, Held(prefix))) == CostOfLowest(prefix, Min(y, Held(prefix)))
    ensures CostOfFirst(RunLots(Lifo, trades).lots, y) == CostOfLowest(trades, y)
  {
    hide Worth, CostOfFirst, Quantity, MatchSell, RunLots, Bought, Consumed, TotalQuantity, Value;
    var prefix, t := trades[..|trades| - 1], trades[|trades| - 1];
    var lots, lot := RunLots(Lifo, prefix).lots, Lot(t.quantity, t.price);
    RunUnfolds(Lifo, trades);
    QuantityLeft(Lifo, prefix);
    CurveOfConcatenation(lots, [lot], y);
    if y <= Held(prefix) {
      EmptyCurve([lot], y - Held(prefix));
    } else {
      CurveSaturates(lots, y);
      CurveSaturates(lots, Held(prefix));
      CostInsideFirst([lot], y - Held(prefix));
    }
  }

  lemma LifoAfterSell(trades: seq<Trade>, y: real)
    requires trades != [] && trades[|trades| - 1].side == Sell
    requires var prefix := trades[..|trades| - 1];
      && QuantitiesNonNegative(RunLots(Lifo, prefix).lots)
      && y <= Held(trades)
      && (y <= Held(prefix) ==> CostOfFirst(RunLots(Lifo, prefix).lots, y) == CostOfLowest(prefix, y))
    ensures CostOfFirst(RunLots(Lifo, trades).lots, y) == CostOfLowest(trades, y)
  {
    hide Worth, CostOfFirst, Quantity, MatchSell, RunLots, Bought, Consumed, TotalQuantity;
    var prefix, t := trades[..|trades| - 1], trades[|trades| - 1];
    RunUnfolds(Lifo, trades);
    QuantityLeft(Lifo, prefix);
    QuantityLeft(Lifo, trades);
    LifoKeepsLowest(t.quantity, RunLots(Lifo, prefix).lots, y);
  }

  /** Over every LIFO run, overselling included, the open lots are the stack of purchases. */
  lemma {:induction false} LifoKeepsAStack(trades: seq<Trade>, y: real)
    requires NonNegative(trades) && y <= Held(trades)
    ensures CostOfFirst(RunLots(Lifo, trades).lots, y) == CostOfLowest(trades, y)
  {
    hide Held, CostOfFirst, RunLots, CostOfLowest;
    if trades == [] {
      LifoHoldsAtStart(y);
    } else {
      var prefix, t := trades[..|trades| - 1], trades[|trades| - 1];
      LedgerKeepsQuantities(Lifo, prefix);
      if t.side == Buy {
        LifoKeepsAStack(prefix, Min(y, Held(prefix)));
        LifoAfterBuy(trades, y);
      } else {
        if y <= Held(prefix) { LifoKeepsAStack(prefix, y); }
        LifoAfterSell(trades, y);
      }
    }
  }

  /** So a LIFO sell is charged the top of the stack, less the value of the dust it drops. */
  lemma LifoChargesNewestUnits(prefix: seq<Trade>, quantity: real)
    requires NonNegative(prefix) && quantity >= 0.0
    ensures var m := MatchSell(Lifo, quantity, RunLots(Lifo, prefix).lots);
      var cut := quantity - m.unmatched + m.dustQuantity;
      && cut >= 0.0
      && m.cost + m.dust == CostOfLowest(prefix, Held(prefix)) - CostOfLowest(prefix, Held(prefix) - cut)
  {
    hide MatchSell, RunLots, Consumed, CostOfFirst, CostOfLowest, Quantity, Value, TotalQuantity;
    var lots := RunLots(Lifo, prefix).lots;
    var m := MatchSell(Lifo, quantity, lots);
    LedgerKeepsQuantities(Lifo, prefix);
    MatchKeepsQuantities(Lifo, quantity, lots);
    MatchConserves(Lifo, quantity, lots);
    MatchChargesTheFront(Lifo, quantity, lots, 0.0);
    QuantityLeft(Lifo, prefix);
    CurveSaturates(lots, Quantity(lots));
    CurveSaturates(m.lots, Quantity(m.lots));
    LifoKeepsLowest(quantity, lots, Quantity(m.lots));
    LifoKeepsAStack(prefix, Held(prefix));
    LifoKeepsAStack(prefix, Quantity(m.lots));
  }

  /** Realised profit misses only the value still queued and the value dropped as dust, for every history. */
  lemma RealizedPnlIdentity(d: Discipline, trades: seq<Trade>)
    ensures var l := RunLots(d, trades);
      Realized(l.rows) == TotalValue(trades, Sell) - TotalValue(trades, Buy) + Value(l.lots) + l.dust
  {
    LedgerConserves(d, trades);
  }

  /** Dust dropped over a run is non-negative and at most the threshold times the prices of the removed lots. */
  lemma {:induction false} LedgerDust(d: Discipline, trades: seq<Trade>)
    requires forall i :: 0 <= i < |trades| ==> trades[i].price >= 0.0
    ensures var l := RunLots(d, trades);
      && 0.0 <= l.dust <= Worth(DUST, l.droppedPrices)
      && PricesNonNegative(l.lots)
  {
    hide Worth, MatchSell;
    if trades != [] {
      var prefix, t := trades[..|trades| - 1], trades[|trades| - 1];
      LedgerDust(d, prefix);
      if t.side == Sell {
        var before := RunLots(d, prefix);
        MatchDust(d, t.quantity, before.lots);
        WorthSplitsPrice(DUST, before.droppedPrices, MatchSell(d, t.quantity, before.lots).droppedPrices);
      }
    } else {
      assert Worth(DUST, 0.0) == 0.0 by { WorthSplitsPrice(DUST, 0.0, 0.0); }
    }
  }

  /** No run ever holds a negative lot, whether or not it oversells. */
  lemma {:induction false} LedgerKeepsQuantities(d: Discipline, trades: seq<Trade>)
    requires forall i :: 0 <= i < |trades| ==> trades[i].quantity >= 0.0
    ensures QuantitiesNonNegative(RunLots(d, trades).lots)
  {
    hide MatchSell;
    if trades != [] {
      var prefix, t := trades[..|trades| - 1], trades[|trades| - 1];
      LedgerKeepsQuantities(d, prefix);
      if t.side == Sell {
        MatchKeepsQuantities(d, t.quantity, RunLots(d, prefix).lots);
      }
    }
  }

  lemma NeverOversellsPrefix(trades: seq<Trade>)
    requires trades != [] && NeverOversells(trades)
    ensures NeverOversells(trades[..|trades| - 1])
    ensures TotalQuantity(trades, Sell) <= TotalQuantity(trades, Buy)
  {
    var prefix := trades[..|trades| - 1];
    forall n | 0 <= n <= |prefix|
      ensures TotalQuantity(prefix[..n], Sell) <= TotalQuantity(prefix[..n], Buy)
    {
      assert prefix[..n] == trades[..n];
    }
    assert trades[..|trades|] == trades;
  }

  /** Lots and leftovers stay non-negative, and both the dropped and the unmatched quantity stay within the allowance. */
  lemma {:induction false} LedgerBounds(d: Discipline, trades: seq<Trade>, top: real)
    requires NonNegative(trades) && NeverOversells(trades) && BuyPricesAtMost(trades, top) && top >= 0.0
    ensures var l := RunLots(d, trades);
      && LotsWithin(l.lots, top)
      && l.dust <= Worth(l.dustQuantity, top)
      && 0.0 <= l.dustQuantity <= DustAllowance(trades)
      && 0.0 <= l.unmatched <= DustAllowance(trades)
  {
    hide Worth, MatchSell, Quantity, Value;
    if trades != [] {
      var prefix, t := trades[..|trades| - 1], trades[|trades| - 1];
      NeverOversellsPrefix(trades);
      LedgerBounds(d, prefix, top);
      if t.side == Sell {
        var before := RunLots(d, prefix);
        var m := MatchSell(d, t.quantity, before.lots);
        MatchBounds(d, t.quantity, before.lots, top);
        MatchDustWorth(d, t.quantity, before.lots, top);
        WorthSplits(before.dustQuantity, m.dustQuantity, top);
        if m.unmatched > DUST {
          LedgerConserves(d, trades);
          NoLots();
        }
      }
    } else {
      assert Worth(0.0, top) == 0.0 by { WorthSplits(0.0, 0.0, top); }
    }
  }

  lemma {:induction false} ValueAtMost(lots: seq<Lot>, top: real)
    requires LotsWithin(lots, top)
    ensures 0.0 <= Value(lots) <= Worth(Quantity(lots), top)
  {
    hide Worth;
    if lots != [] {
      var front, last := lots[..|lots| - 1], lots[|lots| - 1];
      ValueAtMost(front, top);
      WorthGrows(last.quantity, last.quantity, last.price, top);
      WorthSplits(Quantity(front), last.quantity, top);
    } else {
      assert Worth(0.0, top) == 0.0 by { WorthSplits(0.0, 0.0, top); }
    }
  }

  lemma {:induction false} AllowanceCounts(trades: seq<Trade>)
    ensures DustAllowance(trades) == CountSells(trades) as real * DUST
  {
    if trades != [] {
      AllowanceCounts(trades[..|trades| - 1]);
    }
  }

  /**
   On a history that never oversells and ends flat, FIFO and LIFO both realise sell value minus buy value,
   up to one dust threshold per sell at the highest buy price.
   */
  lemma FlatPnlWithinDust(d: Discipline, trades: seq<Trade>, top: real)
    requires NonNegative(trades) && NeverOversells(trades) && BuyPricesAtMost(trades, top) && top >= 0.0
    requires TotalQuantity(trades, Sell) == TotalQuantity(trades, Buy)
    ensures var gap := Realized(RunLots(d, trades).rows) - (TotalValue(trades, Sell) - TotalValue(trades, Buy));
      0.0 <= gap <= DustSlack(trades, top)
  {
    hide Worth, Value, Quantity, RunLots;
    var l := RunLots(d, trades);
    LedgerConserves(d, trades);
    LedgerBounds(d, trades, top);
    LedgerDust(d, trades);
    ValueAtMost(l.lots, top);
    assert l.unmatched == Quantity(l.lots) + l.dustQuantity;
    WorthSplits(Quantity(l.lots), l.dustQuantity, top);
    WorthGrows(l.unmatched, DustAllowance(trades), top, top);
    AllowanceCounts(trades);
  }

  /** Average-cost profit misses exactly the cost still carried, for every history. */
  lemma {:induction false} AverageConserves(trades: seq<Trade>)
    ensures var l := RunAverage(trades);
      && Realized(l.rows) == TotalValue(trades, Sell) - TotalValue(trades, Buy) + l.totalCost
      && l.totalQuantity == TotalQuantity(trades, Buy) - TotalQuantity(trades, Sell)
  {
    hide Worth;
    if trades != [] {
      AverageConserves(trades[..|trades| - 1]);
      var rows := RunAverage(trades).rows;
      assert rows[..|rows| - 1] == RunAverage(trades[..|trades| - 1]).rows;
    }
  }

  lemma AverageSellsOut(quantity: real, cost: real)
    requires quantity > 0.0
    ensures Worth(quantity, cost / quantity) == cost
  {
  }

  lemma {:induction false} AverageCarriesNothingWhenFlat(trades: seq<Trade>)
    requires NonNegative(trades) && NeverOversells(trades)
    ensures var l := RunAverage(trades); l.totalQuantity == 0.0 ==> l.totalCost == 0.0
  {
    hide Worth;
    if trades != [] {
      var prefix, t := trades[..|trades| - 1], trades[|trades| - 1];
      NeverOversellsPrefix(trades);
      AverageCarriesNothingWhenFlat(prefix);
      AverageConserves(prefix);
      var before := RunAverage(prefix);
      assert before.totalQuantity >= 0.0 by { assert prefix == trades[..|trades| - 1]; }
      if RunAverage(trades).totalQuantity == 0.0 {
        if before.totalQuantity > 0.0 {
          AverageSellsOut(before.totalQuantity, before.totalCost);
        } else {
          assert t.quantity == 0.0;
          WorthSplits(0.0, 0.0, t.price);
          WorthSplits(0.0, 0.0, 0.0);
        }
      }
    }
  }

  /** The three methods agree on a history that never oversells and ends flat: average exactly, the others up to dust. */
  lemma ThreeMethodsAgree(trades: seq<Trade>, top: real)
    requires NonNegative(trades) && NeverOversells(trades) && BuyPricesAtMost(trades, top) && top >= 0.0
    requires TotalQuantity(trades, Sell) == TotalQuantity(trades, Buy)
    ensures var average := Realized(RunAverage(trades).rows);
      var slack := DustSlack(trades, top);
      && average == TotalValue(trades, Sell) - TotalValue(trades, Buy)
      && average <= Realized(RunLots(Fifo, trades).rows) <= average + slack
      && average <= Realized(RunLots(Lifo, trades).rows) <= average + slack
  {
    AverageConserves(trades);
    AverageCarriesNothingWhenFlat(trades);
    FlatPnlWithinDust(Fifo, trades, top);
    FlatPnlWithinDust(Lifo, trades, top);
  }

  // ---- What the rows tell ----

  lemma {:induction false} RowOfPrefix(d: Discipline, trades: seq<Trade>, n: nat)
    requires n < |trades|
    ensures |RunLots(d, trades).rows| == |trades|
    ensures |RunLots(d, trades[..n + 1]).rows| == n + 1
    ensures RunLots(d, trades).rows[n] == RunLots(d, trades[..n + 1]).rows[n]
    decreases |trades|
  {
    hide Worth, MatchSell, Quantity;
    var front := trades[..|trades| - 1];
    RowCount(d, trades);
    RowCount(d, trades[..n + 1]);
    if n < |front| {
      RowOfPrefix(d, front, n);
      assert front[..n + 1] == trades[..n + 1];
    } else {
      assert trades[..n + 1] == trades;
    }
  }

  lemma {:induction false} RowCount(d: Discipline, trades: seq<Trade>)
    ensures |RunLots(d, trades).rows| == |trades|
  {
    hide Worth, MatchSell, Quantity;
    if trades != [] {
      RowCount(d, trades[..|trades| - 1]);
    }
  }

  /** What a row says about its trade and the position after it. */
  ghost predicate LotRow(row: TradeWithPnl, t: Trade, position: real) {
    && row.trade == t
    && row.accumulatedPosition == Some(position)
    && row.averageEntryPrice == None
    && row.costBasis.Some?
    && (t.side == Buy ==> row.costBasis.value == t.quantity * t.price && row.realizedPnl == None)
    && (t.side == Sell ==> row.realizedPnl.Some? && row.costBasis.value + row.realizedPnl.value == t.quantity * t.price)
  }

  lemma NewLotRow(d: Discipline, before: Ledger, t: Trade)
    ensures var after := LotStep(d, before, t);
      |after.rows| == |before.rows| + 1 && LotRow(after.rows[|before.rows|], t, Quantity(after.lots))
  {
    WorthIs(t.quantity, t.price);
    hide MatchSell, Quantity, Worth;
    var row := LotStep(d, before, t).rows[|before.rows|];
    if t.side == Buy {
      assert row.costBasis == Some(Worth(t.quantity, t.price));
    } else {
      assert row.realizedPnl.value == Worth(t.quantity, t.price) - row.costBasis.value;
    }
  }

  lemma WorthIs(quantity: real, price: real)
    ensures Worth(quantity, price) == quantity * price
  {
  }

  /**
   Row `n` of a FIFO or LIFO run: a purchase shows its own cost and no profit; a sale splits its proceeds into cost
   and profit; and both show the position, which is what was bought less what was consumed so far.
   */
  lemma LotRowTells(d: Discipline, trades: seq<Trade>, n: nat)
    requires n < |trades|
    ensures |RunLots(d, trades).rows| == |trades|
    ensures LotRow(RunLots(d, trades).rows[n], trades[n], TotalQuantity(trades[..n + 1], Buy) - Consumed(d, trades[..n + 1]))
  {
    RowOfPrefix(d, trades, n);
    RowCount(d, trades[..n]);
    QuantityLeft(d, trades[..n + 1]);
    assert trades[..n + 1][..n] == trades[..n];
    NewLotRow(d, RunLots(d, trades[..n]), trades[n]);
    assert RunLots(d, trades[..n + 1]) == LotStep(d, RunLots(d, trades[..n]), trades[n]);
    hide Quantity, TotalQuantity, Consumed, LotRow, LotStep, RunLots;
  }

  lemma {:induction false} AverageRowOfPrefix(trades: seq<Trade>, n: nat)
    requires n < |trades|
    ensures |RunAverage(trades).rows| == |trades|
    ensures |RunAverage(trades[..n + 1]).rows| == n + 1
    ensures RunAverage(trades).rows[n] == RunAverage(trades[..n + 1]).rows[n]
    decreases |trades|
  {
    hide Worth;
    var front := trades[..|trades| - 1];
    AverageRowCount(trades);
    AverageRowCount(trades[..n + 1]);
    if n < |front| {
      AverageRowOfPrefix(front, n);
      assert front[..n + 1] == trades[..n + 1];
    } else {
      assert trades[..n + 1] == trades;
    }
  }

  lemma {:induction false} AverageRowCount(trades: seq<Trade>)
    ensures |RunAverage(trades).rows| == |trades|
  {
    hide Worth;
    if trades != [] {
      AverageRowCount(trades[..|trades| - 1]);
    }
  }

  lemma Quotient(part: real, whole: real)
    requires whole != 0.0
    ensures part / whole * whole == part
  {
  }

  lemma Regroup(a: real, b: real, c: real)
    ensures (a * b) * c == a * (b * c)
  {
  }

  /** A sale from a position charges its share of the carried cost, so the average price of what remains is unchanged. */
  lemma SaleKeepsAverage(before: AverageLedger, t: Trade)
    requires t.side == Sell && before.totalQuantity > 0.0
    ensures var after := AverageStep(before, t);
      && (before.totalCost - after.totalCost) * before.totalQuantity == t.quantity * before.totalCost
      && after.totalCost * before.totalQuantity == before.totalCost * after.totalQuantity
  {
    var quantity, cost, after := before.totalQuantity, before.totalCost, AverageStep(before, t);
    var average := cost / quantity;
    Quotient(cost, quantity);
    Regroup(t.quantity, average, quantity);
    assert after.totalCost == cost - t.quantity * average && after.totalQuantity == quantity - t.quantity;
    assert (t.quantity * average) * quantity == t.quantity * cost;
    assert (cost - t.quantity * average) * quantity == cost * quantity - (t.quantity * average) * quantity;
    assert cost * (quantity - t.quantity) == cost * quantity - t.quantity * cost;
  }

  /** What a row of the average method says about its trade, and the ledger before and after it. */
  ghost predicate AverageRow(row: TradeWithPnl, t: Trade, before: AverageLedger, after: AverageLedger) {
    && row.trade == t
    && row.accumulatedPosition == Some(after.totalQuantity)
    && row.costBasis.Some? && row.averageEntryPrice.Some?
    && (t.side == Buy ==>
          && row.costBasis.value == Worth(t.quantity, t.price) && row.realizedPnl == None
          && after.totalQuantity == before.totalQuantity + t.quantity
          && after.totalCost == before.totalCost + Worth(t.quantity, t.price)
          && (after.totalQuantity > 0.0 ==> Worth(after.totalQuantity, row.averageEntryPrice.value) == after.totalCost))
    && (t.side == Sell ==>
          && row.realizedPnl.Some?
          && after.totalQuantity == before.totalQuantity - t.quantity
          && after.totalCost == before.totalCost - row.costBasis.value
          && row.costBasis.value + row.realizedPnl.value == Worth(t.quantity, t.price)
          && row.costBasis.value == Worth(t.quantity, row.averageEntryPrice.value)
          && (before.totalQuantity > 0.0 ==> Worth(before.totalQuantity, row.averageEntryPrice.value) == before.totalCost))
  }

  lemma NewAverageRow(before: AverageLedger, t: Trade)
    ensures var after := AverageStep(before, t);
      |after.rows| == |before.rows| + 1 && AverageRow(after.rows[|before.rows|], t, before, after)
  {
    hide Worth;
    var after := AverageStep(before, t);
    if before.totalQuantity > 0.0 { AverageSellsOut(before.totalQuantity, before.totalCost); }
    if after.totalQuantity > 0.0 { AverageSellsOut(after.totalQuantity, after.totalCost); }
  }

  /**
   Row `n` of the average method: the position is what was bought less what was sold; after a purchase the average
   price times the position is the carried cost; a sale is charged at the average it shows.
   */
  lemma AverageRowTells(trades: seq<Trade>, n: nat)
    requires n < |trades|
    ensures |RunAverage(trades).rows| == |trades|
    ensures AverageRow(RunAverage(trades).rows[n], trades[n], RunAverage(trades[..n]), RunAverage(trades[..n + 1]))
    ensures RunAverage(trades[..n + 1]).totalQuantity == TotalQuantity(trades[..n + 1], Buy) - TotalQuantity(trades[..n + 1], Sell)
  {
    AverageRowOfPrefix(trades, n);
    AverageRowCount(trades[..n]);
    AverageConserves(trades[..n + 1]);
    assert trades[..n + 1][..n] == trades[..n];
    NewAverageRow(RunAverage(trades[..n]), trades[n]);
    assert RunAverage(trades[..n + 1]) == AverageStep(RunAverage(trades[..n]), trades[n]);
    hide TotalQuantity, AverageRow, AverageStep, RunAverage;
  }
}
