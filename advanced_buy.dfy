/**
 * The signal classifier of the advanced-buy panel: a strict priority cascade
 * cut-loss, then cancel-buy, then buy, and "none" otherwise.
 */
module AdvancedBuy {
  import opened Market
  import opened SettingsStore
  import opened Ledger
  import opened PriceHistory
  import opened Decision

  datatype TradingSignal = NoSignal | BuySignal | CancelBuySignal | CutLossSignal

  datatype SignalReason =
    | WaitingForPriceData
    | ProactiveCutLoss(text: string)
    | SellOrderTooStale
    | GateFailed(gate: Reason)
    | BuyOrderTooStale
    | WaitingForBuyFill
    | NoReason
    | GapTooHigh(gap: real)
    | WaitingForSellFill
    | Monitoring

  datatype Signal = Signal(kind: TradingSignal, reason: SignalReason)

  /** The answer of the proactive cut-loss check, which this model does not compute. */
  datatype ProactiveCheck = ProactiveCheck(shouldCutLoss: bool, reason: string)

  /** Everything the classifier reads in one evaluation. */
  datatype Observation = Observation(
    quote: Quote,
    orders: seq<OpenOrder>,
    depth: OrderBookDepth,
    proactive: ProactiveCheck)

  predicate HasSide(orders: seq<OpenOrder>, side: Side) {
    exists o :: o in orders && o.side == side
  }

  predicate AnyStaleSell(orders: seq<OpenOrder>, ask: real, t: real) {
    exists o :: o in orders && IsStaleSell(o, ask, t)
  }

  predicate AnyStaleBuy(orders: seq<OpenOrder>, bid: real, t: real) {
    exists o :: o in orders && IsStaleBuy(o, bid, t)
  }

  /** The cut-loss condition: sell orders exist and the proactive check fires or one is stale. */
  predicate CutLossDue(ob: Observation, s: Settings) {
    HasSide(ob.orders, Sell) &&
    (ob.proactive.shouldCutLoss || AnyStaleSell(ob.orders, ob.quote.ask, s.cancelThreshold))
  }

  function DetermineSignal(ob: Observation, s: Settings, trades: seq<TradeRecord>, prices: seq<real>): (sig: Signal)
    requires Positive(prices)
  {
    var q := ob.quote;
    if !HasPrices(q) then Signal(NoSignal, WaitingForPriceData)
    else
      var gap := Gap(q);
      var hasBuy := HasSide(ob.orders, Buy);
      var hasSell := HasSide(ob.orders, Sell);
      var t := s.cancelThreshold;
      // Priority 1: cut loss while holding tokens
      if hasSell && ob.proactive.shouldCutLoss then Signal(CutLossSignal, ProactiveCutLoss(ob.proactive.reason))
      else if hasSell && AnyStaleSell(ob.orders, q.ask, t) then Signal(CutLossSignal, SellOrderTooStale)
      // Priority 2: cancel a buy order whose conditions deteriorated
      else if hasBuy then
        var check := CheckTradeConditions(q, s, trades, prices, ob.depth);
        if !check.canTrade then Signal(CancelBuySignal, GateFailed(check.reason))
        else if AnyStaleBuy(ob.orders, q.bid, t) then Signal(CancelBuySignal, BuyOrderTooStale)
        else Signal(NoSignal, WaitingForBuyFill)
      // Priority 3: enter when nothing is open
      else if !hasBuy && !hasSell then
        if Abs(gap) < s.gapThreshold then
          var check := CheckTradeConditions(q, s, trades, prices, ob.depth);
          if check.canTrade then Signal(BuySignal, NoReason) else Signal(NoSignal, GateFailed(check.reason))
        else Signal(NoSignal, GapTooHigh(gap))
      else if hasSell && !hasBuy then Signal(NoSignal, WaitingForSellFill)
      else Signal(NoSignal, Monitoring)
  }

  /** Without both prices nothing is signalled. */
  lemma NoPriceNoSignal(ob: Observation, s: Settings, trades: seq<TradeRecord>, prices: seq<real>)
    requires Positive(prices) && !HasPrices(ob.quote)
    ensures DetermineSignal(ob, s, trades, prices) == Signal(NoSignal, WaitingForPriceData)
  {
  }

  /** Cut-loss is signalled exactly when it is due, whatever the gap or the gate say. */
  lemma CutLossIff(ob: Observation, s: Settings, trades: seq<TradeRecord>, prices: seq<real>)
    requires Positive(prices)
    ensures DetermineSignal(ob, s, trades, prices).kind == CutLossSignal <==>
      HasPrices(ob.quote) && CutLossDue(ob, s)
  {
  }

  /**
   * Cancel-buy is signalled exactly when buy orders exist, no cut-loss is due
   * and either the gate fails (its reason is carried) or a buy order is stale.
   */
  lemma CancelBuyIff(ob: Observation, s: Settings, trades: seq<TradeRecord>, prices: seq<real>)
    requires Positive(prices)
    ensures var sig := DetermineSignal(ob, s, trades, prices);
      sig.kind == CancelBuySignal <==>
        HasPrices(ob.quote) && !CutLossDue(ob, s) && HasSide(ob.orders, Buy) &&
        (!CheckTradeConditions(ob.quote, s, trades, prices, ob.depth).canTrade ||
         AnyStaleBuy(ob.orders, ob.quote.bid, s.cancelThreshold))
    ensures var sig := DetermineSignal(ob, s, trades, prices);
      HasPrices(ob.quote) && !CutLossDue(ob, s) && HasSide(ob.orders, Buy) &&
      !CheckTradeConditions(ob.quote, s, trades, prices, ob.depth).canTrade ==>
        sig == Signal(CancelBuySignal, GateFailed(CheckTradeConditions(ob.quote, s, trades, prices, ob.depth).reason))
  {
  }

  /** A buy order that passes the gate and is not stale is left to fill. */
  lemma BuyOrderWaits(ob: Observation, s: Settings, trades: seq<TradeRecord>, prices: seq<real>)
    requires Positive(prices) && HasPrices(ob.quote) && !CutLossDue(ob, s) && HasSide(ob.orders, Buy)
    requires CheckTradeConditions(ob.quote, s, trades, prices, ob.depth).canTrade
    requires !AnyStaleBuy(ob.orders, ob.quote.bid, s.cancelThreshold)
    ensures DetermineSignal(ob, s, trades, prices) == Signal(NoSignal, WaitingForBuyFill)
  {
  }

  /** Buy is signalled exactly when nothing is open, the gap is small and the gate passes. */
  lemma BuyIff(ob: Observation, s: Settings, trades: seq<TradeRecord>, prices: seq<real>)
    requires Positive(prices)
    ensures DetermineSignal(ob, s, trades, prices).kind == BuySignal <==>
      HasPrices(ob.quote) && ob.orders == [] && Abs(Gap(ob.quote)) < s.gapThreshold &&
      CheckTradeConditions(ob.quote, s, trades, prices, ob.depth).canTrade
  {
    if ob.orders != [] {
      var o := ob.orders[0];
      assert o in ob.orders;
      assert HasSide(ob.orders, o.side);
    }
  }

  /** With nothing open and a wide gap the answer is "gap too high", whatever the gate would say. */
  lemma WideGapNoSignal(ob: Observation, s: Settings, trades: seq<TradeRecord>, prices: seq<real>)
    requires Positive(prices) && HasPrices(ob.quote) && ob.orders == []
    requires Abs(Gap(ob.quote)) >= s.gapThreshold
    ensures DetermineSignal(ob, s, trades, prices) == Signal(NoSignal, GapTooHigh(Gap(ob.quote)))
  {
  }

  /** Sell orders alone with no cut-loss due: wait for them to fill. */
  lemma SellOnlyWaits(ob: Observation, s: Settings, trades: seq<TradeRecord>, prices: seq<real>)
    requires Positive(prices) && HasPrices(ob.quote)
    requires HasSide(ob.orders, Sell) && !HasSide(ob.orders, Buy) && !CutLossDue(ob, s)
    ensures DetermineSignal(ob, s, trades, prices) == Signal(NoSignal, WaitingForSellFill)
  {
  }

  /** The closing "Monitoring..." answer cannot be reached: the order cases are exhaustive. */
  lemma MonitoringUnreachable(ob: Observation, s: Settings, trades: seq<TradeRecord>, prices: seq<real>)
    requires Positive(prices)
    ensures DetermineSignal(ob, s, trades, prices).reason != Monitoring
  {
  }

  /**
   * The staleness half of cut-loss agrees with the auto-trader: a sell order is
   * too stale here exactly when the auto-trader's stale-sell selection is non-empty.
   */
  lemma StaleSellAgreesWithSelection(orders: seq<OpenOrder>, ask: real, t: real)
    ensures AnyStaleSell(orders, ask, t) <==> StaleSells(orders, ask, t) != []
  {
    StaleSellsSelects(orders, ask, t);
    if AnyStaleSell(orders, ask, t) {
      var o :| o in orders && IsStaleSell(o, ask, t);
      assert o in StaleSells(orders, ask, t);
    }
  }

  /** The classifier's stale-buy test is the non-emptiness of the auto-trader's stale-buy selection. */
  lemma StaleBuyAgreesWithSelection(orders: seq<OpenOrder>, bid: real, t: real)
    ensures AnyStaleBuy(orders, bid, t) <==> StaleBuys(orders, bid, t) != []
  {
    StaleBuysSelects(orders, bid, t);
    if AnyStaleBuy(orders, bid, t) {
      var o :| o in orders && IsStaleBuy(o, bid, t);
      assert o in StaleBuys(orders, bid, t);
    }
  }

  /** Worked example: a buy order at 100 with the bid at 102 and a 1% threshold is stale. */
  lemma StaleBuyExample(s: Settings, trades: seq<TradeRecord>, prices: seq<real>, depth: OrderBookDepth)
    requires Positive(prices) && s.cancelThreshold == 1.0
    requires CheckTradeConditions(Quote(102.0, 102.1), s, trades, prices, depth).canTrade
    ensures var ob := Observation(Quote(102.0, 102.1), [OpenOrder(Buy, 100.0)], depth, ProactiveCheck(false, ""));
      DetermineSignal(ob, s, trades, prices) == Signal(CancelBuySignal, BuyOrderTooStale)
  {
    var ob := Observation(Quote(102.0, 102.1), [OpenOrder(Buy, 100.0)], depth, ProactiveCheck(false, ""));
    assert ob.orders[0] in ob.orders;
    assert HasSide(ob.orders, Buy);
    assert IsStaleBuy(ob.orders[0], 102.0, 1.0);
  }
}
