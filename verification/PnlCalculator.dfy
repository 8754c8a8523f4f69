/** The calculators of the source, loop by loop, each proved to compute the run that `LotMatching` defines. */
module PnlCalculator {
  import opened Basics
  import opened LotMatching
  import StableSort
  import Sums

  datatype Method = FifoMethod | LifoMethod | AvgMethod

  /** The realised part of an asset summary. */
  datatype Summary = Summary(
    totalTrades: nat,
    sellTrades: nat,
    totalBuyValue: real,
    totalSellValue: real,
    realizedPnl: real,
    totalFees: real,
    openPosition: real)

  // ---- Time order, without sorting ----

  /** `history` holds the same trades, oldest first, and trades of one moment in the order in which they were supplied. */
  ghost predicate IsTimeOrder(trades: seq<Trade>, history: seq<Trade>) {
    && (forall i, j :: 0 <= i < j < |history| ==> history[i].time <= history[j].time)
    && StableSort.IsTimeOrder(trades, history, (t: Trade) => t.time)
  }

  function TotalFees(trades: seq<Trade>): real {
    if trades == [] then 0.0 else TotalFees(trades[..|trades| - 1]) + trades[|trades| - 1].fee
  }

  /** Rows each method produces for a history already in time order. */
  function Rows(how: Method, history: seq<Trade>): seq<TradeWithPnl> {
    match how
    case FifoMethod => RunLots(Fifo, history).rows
    case LifoMethod => RunLots(Lifo, history).rows
    case AvgMethod => RunAverage(history).rows
  }

  method OpenQuantity(lots: seq<Lot>) returns (sum: real)
    ensures sum == Quantity(lots)
  {
    sum := 0.0;
    for i := 0 to |lots|
      invariant sum == Quantity(lots[..i])
    {
      assert lots[..i + 1][..i] == lots[..i];
      sum := sum + lots[i].quantity;
    }
    assert lots[..|lots|] == lots;
  }

  method CalculateFifoPnl(trades: seq<Trade>) returns (result: seq<TradeWithPnl>)
    ensures result == RunLots(Fifo, trades).rows
  {
    hide MatchSell, Worth, Quantity;
    result := [];
    var buyQueue: seq<Lot> := [];
    for n := 0 to |trades|
      invariant result == RunLots(Fifo, trades[..n]).rows
      invariant buyQueue == RunLots(Fifo, trades[..n]).lots
    {
      var trade := trades[n];
      assert trades[..n + 1][..n] == trades[..n];
      if trade.side == Buy {
        buyQueue := buyQueue + [Lot(trade.quantity, trade.price)];
        var position := OpenQuantity(buyQueue);
        result := result + [TradeWithPnl(trade, Some(Worth(trade.quantity, trade.price)), None, Some(position), None)];
      } else {
        var totalCostBasis;
        buyQueue, totalCostBasis := MatchEarliest(trade.quantity, buyQueue);
        var pnl := Worth(trade.quantity, trade.price) - totalCostBasis;
        var position := OpenQuantity(buyQueue);
        result := result + [TradeWithPnl(trade, Some(totalCostBasis), Some(pnl), Some(position), None)];
      }
    }
    assert trades[..|trades|] == trades;
  }

  /** The inner loop of a FIFO sell: the first lot shrinks in place until it is dust, then it is shifted out. */
  method MatchEarliest(quantity: real, lots: seq<Lot>) returns (buyQueue: seq<Lot>, totalCostBasis: real)
    ensures var m := MatchSell(Fifo, quantity, lots); buyQueue == m.lots && totalCostBasis == m.cost
  {
    var remainingQty := quantity;
    buyQueue, totalCostBasis := lots, 0.0;
    while remainingQty > DUST && |buyQueue| > 0
      invariant var m, rest := MatchSell(Fifo, quantity, lots), MatchSell(Fifo, remainingQty, buyQueue);
        m.lots == rest.lots && m.cost == totalCostBasis + rest.cost
      decreases |buyQueue|, if remainingQty > DUST then 1 else 0
    {
      hide Worth;
      var buy := buyQueue[0];
      var matchedQty := Min(remainingQty, buy.quantity);
      totalCostBasis := totalCostBasis + Worth(matchedQty, buy.price);
      buyQueue := buyQueue[0 := buy.(quantity := buy.quantity - matchedQty)];
      remainingQty := remainingQty - matchedQty;
      if buyQueue[0].quantity <= DUST {
        assert buyQueue[1..] == Without(buyQueue[0 := buy], 0);
        buyQueue := buyQueue[1..];
      }
    }
  }

  method CalculateLifoPnl(trades: seq<Trade>) returns (result: seq<TradeWithPnl>)
    ensures result == RunLots(Lifo, trades).rows
  {
    hide MatchSell, Worth, Quantity;
    result := [];
    var buyQueue: seq<Lot> := [];
    for n := 0 to |trades|
      invariant result == RunLots(Lifo, trades[..n]).rows
      invariant buyQueue == RunLots(Lifo, trades[..n]).lots
    {
      var trade := trades[n];
      assert trades[..n + 1][..n] == trades[..n];
      if trade.side == Buy {
        buyQueue := buyQueue + [Lot(trade.quantity, trade.price)];
        var position := OpenQuantity(buyQueue);
        result := result + [TradeWithPnl(trade, Some(Worth(trade.quantity, trade.price)), None, Some(position), None)];
      } else {
        var totalCostBasis;
        buyQueue, totalCostBasis := MatchLatest(trade.quantity, buyQueue);
        var pnl := Worth(trade.quantity, trade.price) - totalCostBasis;
        var position := OpenQuantity(buyQueue);
        result := result + [TradeWithPnl(trade, Some(totalCostBasis), Some(pnl), Some(position), None)];
      }
    }
    assert trades[..|trades|] == trades;
  }

  /** The inner loop of a LIFO sell: the last lot shrinks in place until it is dust, then it is popped. */
  method MatchLatest(quantity: real, lots: seq<Lot>) returns (buyQueue: seq<Lot>, totalCostBasis: real)
    ensures var m := MatchSell(Lifo, quantity, lots); buyQueue == m.lots && totalCostBasis == m.cost
  {
    var remainingQty := quantity;
    buyQueue, totalCostBasis := lots, 0.0;
    while remainingQty > DUST && |buyQueue| > 0
      invariant var m, rest := MatchSell(Lifo, quantity, lots), MatchSell(Lifo, remainingQty, buyQueue);
        m.lots == rest.lots && m.cost == totalCostBasis + rest.cost
      decreases |buyQueue|, if remainingQty > DUST then 1 else 0
    {
      hide Worth;
      var last := |buyQueue| - 1;
      var buy := buyQueue[last];
      var matchedQty := Min(remainingQty, buy.quantity);
      totalCostBasis := totalCostBasis + Worth(matchedQty, buy.price);
      buyQueue := buyQueue[last := buy.(quantity := buy.quantity - matchedQty)];
      remainingQty := remainingQty - matchedQty;
      if buyQueue[last].quantity <= DUST {
        assert buyQueue[..last] == Without(buyQueue[last := buy], last);
        buyQueue := buyQueue[..last];
      }
    }
  }

  method CalculateAveragePnl(trades: seq<Trade>) returns (result: seq<TradeWithPnl>)
    ensures result == RunAverage(trades).rows
  {
    result := [];
    var totalQuantity, totalCost := 0.0, 0.0;
    for n := 0 to |trades|
      invariant RunAverage(trades[..n]) == AverageLedger(result, totalQuantity, totalCost)
    {
      hide Worth;
      var trade := trades[n];
      assert trades[..n + 1][..n] == trades[..n];
      if trade.side == Buy {
        var newCost := Worth(trade.quantity, trade.price);
        totalCost := totalCost + newCost;
        totalQuantity := totalQuantity + trade.quantity;
        var avgPrice := if totalQuantity > 0.0 then totalCost / totalQuantity else 0.0;
        result := result + [TradeWithPnl(trade, Some(newCost), None, Some(totalQuantity), Some(avgPrice))];
      } else {
        var avgPrice := if totalQuantity > 0.0 then totalCost / totalQuantity else 0.0;
        var costBasis := Worth(trade.quantity, avgPrice);
        var pnl := Worth(trade.quantity, trade.price) - costBasis;
        totalQuantity := totalQuantity - trade.quantity;
        totalCost := totalCost - costBasis;
        result := result + [TradeWithPnl(trade, Some(costBasis), Some(pnl), Some(totalQuantity), Some(avgPrice))];
      }
    }
    assert trades[..|trades|] == trades;
  }

  /** The totals of a summary, one pass over the rows; the source writes one `reduce` per total. */
  method GenerateAssetSummary(rows: seq<TradeWithPnl>, includeFees: bool) returns (s: Summary)
    ensures var trades := TradesOf(rows);
      && s.totalTrades == |trades|
      && s.sellTrades == CountSells(trades)
      && s.totalBuyValue == TotalValue(trades, Buy)
      && s.totalSellValue == TotalValue(trades, Sell)
      && s.totalFees == TotalFees(trades)
      && s.realizedPnl == Realized(rows) - (if includeFees then TotalFees(trades) else 0.0)
      && s.openPosition == TotalQuantity(trades, Buy) - TotalQuantity(trades, Sell)
  {
    var bought, sold, boughtValue, soldValue, realizedPnl, fees, sells := 0.0, 0.0, 0.0, 0.0, 0.0, 0.0, 0;
    ghost var trades := TradesOf(rows);
    for n := 0 to |rows|
      invariant bought == TotalQuantity(trades[..n], Buy) && sold == TotalQuantity(trades[..n], Sell)
      invariant boughtValue == TotalValue(trades[..n], Buy) && soldValue == TotalValue(trades[..n], Sell)
      invariant realizedPnl == Realized(rows[..n])
      invariant fees == TotalFees(trades[..n]) && sells == CountSells(trades[..n])
    {
      hide Worth;
      assert trades[..n + 1][..n] == trades[..n] && rows[..n + 1][..n] == rows[..n];
      var t := rows[n].trade;
      if t.side == Buy {
        bought, boughtValue := bought + t.quantity, boughtValue + Worth(t.quantity, t.price);
      } else {
        sold, soldValue := sold + t.quantity, soldValue + Worth(t.quantity, t.price);
        realizedPnl := realizedPnl + rows[n].realizedPnl.GetOr(0.0);
        sells := sells + 1;
      }
      fees := fees + t.fee;
    }
    assert trades[..|trades|] == trades && rows[..|rows|] == rows;
    if includeFees {
      realizedPnl := realizedPnl - fees;
    }
    s := Summary(|rows|, sells, boughtValue, soldValue, realizedPnl, fees, bought - sold);
  }

  function TradesOf(rows: seq<TradeWithPnl>): (trades: seq<Trade>)
    ensures |trades| == |rows|
  {
    seq(|rows|, i requires 0 <= i < |rows| => rows[i].trade)
  }

  lemma {:induction false} RowsKeepTrades(how: Method, history: seq<Trade>)
    ensures TradesOf(Rows(how, history)) == history
  {
    hide Worth, MatchSell, Quantity;
    if history != [] {
      RowsKeepTrades(how, history[..|history| - 1]);
      var rows, before := Rows(how, history), Rows(how, history[..|history| - 1]);
      assert |before| == |history| - 1;
      assert rows[..|before|] == before;
      assert rows[|before|].trade == history[|history| - 1];
      forall i | 0 <= i < |history|
        ensures rows[i].trade == history[i]
      {
        if i < |before| { assert TradesOf(before)[i] == history[i]; }
      }
    }
  }

  method SortedByTime(trades: seq<Trade>) returns (history: seq<Trade>)
    ensures IsTimeOrder(trades, history)
  {
    history := StableSort.SortByTime(trades, (t: Trade) => t.time);
    StableSort.SortedIsTimeOrder(trades, (t: Trade) => t.time);
  }

  /** Trades have exactly one time order, so the rows are determined. */
  lemma TimeOrderIsUnique(trades: seq<Trade>, history: seq<Trade>, other: seq<Trade>)
    requires IsTimeOrder(trades, history) && IsTimeOrder(trades, other)
    ensures history == other
  {
    StableSort.TimeOrderIsUnique(trades, history, (t: Trade) => t.time);
    StableSort.TimeOrderIsUnique(trades, other, (t: Trade) => t.time);
  }

  /**
   The entry point. The rows show the trades in time order, and are those of the chosen method on that history;
   the totals are those of the trades, in whatever order they were supplied.
   */
  method CalculateAssetPnl(trades: seq<Trade>, how: Method, includeFees: bool) returns (r: Result<(seq<TradeWithPnl>, Summary), string>)
    ensures r.Err? <==> trades == []
    ensures r.Ok? ==>
      var history := TradesOf(r.value.0);
      && IsTimeOrder(trades, history)
      && r.value.0 == Rows(how, history)
      && r.value.1.totalTrades == |trades|
      && r.value.1.totalSellValue == TotalValue(trades, Sell)
      && r.value.1.totalBuyValue == TotalValue(trades, Buy)
      && r.value.1.openPosition == TotalQuantity(trades, Buy) - TotalQuantity(trades, Sell)
      && r.value.1.realizedPnl
         == Realized(Rows(how, history)) - (if includeFees then TotalFees(trades) else 0.0)
  {
    if trades == [] {
      return Err("No trades provided");
    }
    var history := SortedByTime(trades);
    hide IsTimeOrder, RunLots, RunAverage;
    var rows: seq<TradeWithPnl>;
    match how {
      case FifoMethod => rows := CalculateFifoPnl(history);
      case LifoMethod => rows := CalculateLifoPnl(history);
      case AvgMethod => rows := CalculateAveragePnl(history);
    }
    RowsKeepTrades(how, history);
    SameTotals(trades, history);
    var summary := GenerateAssetSummary(rows, includeFees);
    r := Ok((rows, summary));
  }

  lemma SameTotals(trades: seq<Trade>, history: seq<Trade>)
    requires IsTimeOrder(trades, history)
    ensures |history| == |trades| && TotalFees(history) == TotalFees(trades)
    ensures TotalValue(history, Buy) == TotalValue(trades, Buy) && TotalValue(history, Sell) == TotalValue(trades, Sell)
    ensures TotalQuantity(history, Buy) == TotalQuantity(trades, Buy) && TotalQuantity(history, Sell) == TotalQuantity(trades, Sell)
  {
    assert |multiset(history)| == |history| && |multiset(trades)| == |trades|;
    TotalsPermute(history, trades, Buy);
    TotalsPermute(history, trades, Sell);
    FeesAreSums(history);
    FeesAreSums(trades);
    Sums.SumPermutes(history, trades, FeeOf());
  }

  ghost function FeeOf(): Trade -> real {
    (t: Trade) => t.fee
  }

  lemma {:induction false} FeesAreSums(trades: seq<Trade>)
    ensures TotalFees(trades) == Sums.Sum(trades, FeeOf())
  {
    if trades != [] {
      FeesAreSums(trades[..|trades| - 1]);
    }
  }

  // ---- The laws on unsorted input ----

  ghost function QuantityOf(side: Side): Trade -> real {
    (t: Trade) => if t.side == side then t.quantity else 0.0
  }

  ghost function ValueOf(side: Side): Trade -> real {
    (t: Trade) => if t.side == side then Worth(t.quantity, t.price) else 0.0
  }

  lemma {:induction false} TotalsAreSums(trades: seq<Trade>, side: Side)
    ensures TotalQuantity(trades, side) == Sums.Sum(trades, QuantityOf(side))
    ensures TotalValue(trades, side) == Sums.Sum(trades, ValueOf(side))
  {
    hide Worth;
    if trades != [] {
      TotalsAreSums(trades[..|trades| - 1], side);
    }
  }

  /** Totals do not depend on the order of trades. */
  lemma TotalsPermute(a: seq<Trade>, b: seq<Trade>, side: Side)
    requires multiset(a) == multiset(b)
    ensures TotalQuantity(a, side) == TotalQuantity(b, side)
    ensures TotalValue(a, side) == TotalValue(b, side)
  {
    hide TotalQuantity, TotalValue;
    TotalsAreSums(a, side);
    TotalsAreSums(b, side);
    Sums.SumPermutes(a, b, QuantityOf(side));
    Sums.SumPermutes(a, b, ValueOf(side));
  }

  /**
   For any order in which trades are supplied: if their time order never oversells and they end flat, the realised
   profit of every method is total sell value minus total buy value, up to one dust threshold per sell.
   */
  lemma AssetPnlIsSalesMinusPurchases(trades: seq<Trade>, history: seq<Trade>, how: Method, top: real)
    requires IsTimeOrder(trades, history)
    requires NonNegative(history) && NeverOversells(history) && BuyPricesAtMost(history, top) && top >= 0.0
    requires TotalQuantity(trades, Sell) == TotalQuantity(trades, Buy)
    ensures var gap := Realized(Rows(how, history)) - (TotalValue(trades, Sell) - TotalValue(trades, Buy));
      && 0.0 <= gap <= CountSells(history) as real * 0.00000001 * top
      && (how == AvgMethod ==> gap == 0.0)
  {
    SlackIs(history, top);
    hide RunLots, RunAverage, DustSlack, TotalQuantity, TotalValue, NeverOversells, NonNegative, BuyPricesAtMost;
    TotalsPermute(trades, history, Buy);
    TotalsPermute(trades, history, Sell);
    ThreeMethodsAgree(history, top);
  }

  lemma SlackIs(history: seq<Trade>, top: real)
    ensures DustSlack(history, top) == CountSells(history) as real * 0.00000001 * top
  {
  }
}
