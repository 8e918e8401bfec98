/**
 * The trade-condition gate: an ordered list of checks where the first
 * failure decides, and the dynamic slippage attached to a passing decision.
 */
module Decision {
  import opened Optional
  import opened Market
  import opened SettingsStore
  import opened Ledger
  import opened PriceHistory
  import opened Constants

  /** Why the gate decided as it did; the source renders these as text. */
  datatype Reason =
    | MaxLossReached(totalProfit: real)
    | NegativeMomentum(momentum: real, threshold: real)
    | OrderBookImbalanced(ratio: real, threshold: real)
    | AllConditionsPassed

  datatype TradeDecision = TradeDecision(canTrade: bool, reason: Reason, dynamicSlippage: Option<real>)

  /** Slippage scaled from the current spread, never below the configured floor. */
  function DynamicSlippage(q: Quote, factor: real, minSlippage: real): (r: real)
    requires q.bid != 0.0
    ensures r >= minSlippage && r >= Gap(q) * factor
    ensures r == minSlippage || r == Gap(q) * factor
  {
    var spread := Gap(q);
    if minSlippage >= spread * factor then minSlippage else spread * factor
  }

  /** The max-loss check: the ledger's total is below minus the allowed loss. */
  predicate MaxLossHit(s: Settings, trades: seq<TradeRecord>) {
    TotalProfit(trades) < -s.maxLoss
  }

  /** The momentum check fails: enabled, a momentum exists, and it is below threshold. */
  predicate MomentumFails(s: Settings, prices: seq<real>)
    requires Positive(prices)
  {
    s.enableMomentumCheck && Momentum(prices).Some? && Momentum(prices).value < s.momentumThreshold
  }

  /** The order-book check fails: enabled and the buy/sell ratio is below threshold. */
  predicate BookFails(s: Settings, depth: OrderBookDepth) {
    s.enableOrderBookCheck && Ratio(depth) < s.orderBookRatioThreshold
  }

  /**
   * The gate: max loss, then momentum, then order-book depth; the first
   * failing check is the reason. A pass carries the dynamic slippage exactly
   * when dynamic slippage is enabled.
   */
  function CheckTradeConditions(q: Quote, s: Settings, trades: seq<TradeRecord>, prices: seq<real>,
                                depth: OrderBookDepth): (d: TradeDecision)
    requires q.bid != 0.0 && Positive(prices)
    ensures d.canTrade <==> !MaxLossHit(s, trades) && !MomentumFails(s, prices) && !BookFails(s, depth)
    ensures !d.canTrade ==> d.dynamicSlippage.None?
    ensures MaxLossHit(s, trades) ==> d.reason == MaxLossReached(TotalProfit(trades))
    ensures !MaxLossHit(s, trades) && MomentumFails(s, prices) ==>
      d.reason == NegativeMomentum(Momentum(prices).value, s.momentumThreshold)
    ensures !MaxLossHit(s, trades) && !MomentumFails(s, prices) && BookFails(s, depth) ==>
      d.reason == OrderBookImbalanced(Ratio(depth), s.orderBookRatioThreshold)
    ensures d.reason.MaxLossReached? ==> MaxLossHit(s, trades)
    ensures d.reason.NegativeMomentum? ==> !MaxLossHit(s, trades) && MomentumFails(s, prices)
    ensures d.reason.OrderBookImbalanced? ==>
      !MaxLossHit(s, trades) && !MomentumFails(s, prices) && BookFails(s, depth)
    ensures d.canTrade <==> d.reason == AllConditionsPassed
    ensures d.canTrade ==>
      d.dynamicSlippage == if s.enableDynamicSlippage then Some(DynamicSlippage(q, s.dynamicSlippageFactor, s.minSlippage)) else None
  {
    var totalProfit := TotalProfit(trades);
    if MaxLossHit(s, trades) then
      TradeDecision(false, MaxLossReached(totalProfit), None)
    else if MomentumFails(s, prices) then
      TradeDecision(false, NegativeMomentum(Momentum(prices).value, s.momentumThreshold), None)
    else if BookFails(s, depth) then
      TradeDecision(false, OrderBookImbalanced(Ratio(depth), s.orderBookRatioThreshold), None)
    else
      var dynamicSlippage :=
        if s.enableDynamicSlippage then Some(DynamicSlippage(q, s.dynamicSlippageFactor, s.minSlippage))
        else None;
      TradeDecision(true, AllConditionsPassed, dynamicSlippage)
  }

  /** Momentum on its own never blocks a trade while fewer than ten prices are known. */
  lemma ShortHistoryIgnoresMomentum(q: Quote, s: Settings, trades: seq<TradeRecord>, prices: seq<real>,
                                    depth: OrderBookDepth)
    requires q.bid != 0.0 && Positive(prices) && |prices| < 2 * MomentumSampleSize
    ensures !CheckTradeConditions(q, s, trades, prices, depth).reason.NegativeMomentum?
  {
  }
}
