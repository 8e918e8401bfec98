/**
 * What the engine observes of the market each tick: the best bid and ask, the
 * open orders of the account and the aggregated order-book depth. Readings
 * come from the page; a price of 0 stands for "not available".
 */
module Market {
  /** Best buy (green) price and best sell (red) price; 0 when not shown. */
  datatype Quote = Quote(bid: real, ask: real)

  /** A quote usable for trading: both prices are present (non-zero). */
  predicate HasPrices(q: Quote) {
    q.bid != 0.0 && q.ask != 0.0
  }

  function Abs(x: real): (r: real)
    ensures r >= 0.0 && (r == x || r == -x)
  {
    if x < 0.0 then -x else x
  }

  /** The spread in percent of the bid: (ask - bid) / bid * 100. */
  function Gap(q: Quote): (g: real)
    requires q.bid != 0.0
    ensures g * q.bid == (q.ask - q.bid) * 100.0
  {
    (q.ask - q.bid) / q.bid * 100.0
  }

  datatype Side = Buy | Sell

  /**
   * A resting order of the account: its side and limit price. The row's
   * cancel button is not modelled, so two orders with the same side and price
   * are the same value.
   */
  datatype OpenOrder = OpenOrder(side: Side, price: real)

  /** A buy order whose limit the bid has outrun by more than `threshold` percent. */
  predicate IsStaleBuy(o: OpenOrder, bid: real, threshold: real) {
    o.side == Buy && bid > o.price * (1.0 + threshold / 100.0)
  }

  /** A sell order whose limit sits more than `threshold` percent above the ask. */
  predicate IsStaleSell(o: OpenOrder, ask: real, threshold: real) {
    o.side == Sell && ask < o.price * (1.0 - threshold / 100.0)
  }

  /** The stale buy orders, in the order the table lists them. */
  function StaleBuys(orders: seq<OpenOrder>, bid: real, threshold: real): seq<OpenOrder> {
    if orders == [] then []
    else (if IsStaleBuy(orders[0], bid, threshold) then [orders[0]] else [])
         + StaleBuys(orders[1..], bid, threshold)
  }

  /** The stale sell orders, in the order the table lists them. */
  function StaleSells(orders: seq<OpenOrder>, ask: real, threshold: real): seq<OpenOrder> {
    if orders == [] then []
    else (if IsStaleSell(orders[0], ask, threshold) then [orders[0]] else [])
         + StaleSells(orders[1..], ask, threshold)
  }

  /** The stale-buy selection keeps exactly the stale buy orders of the list, and no more of them. */
  lemma {:induction false} StaleBuysSelects(orders: seq<OpenOrder>, bid: real, threshold: real)
    ensures |StaleBuys(orders, bid, threshold)| <= |orders|
    ensures forall o :: o in StaleBuys(orders, bid, threshold) <==> o in orders && IsStaleBuy(o, bid, threshold)
  {
    if orders != [] {
      StaleBuysSelects(orders[1..], bid, threshold);
      assert orders == [orders[0]] + orders[1..];
    }
  }

  /** The stale-sell selection keeps exactly the stale sell orders of the list, and no more of them. */
  lemma {:induction false} StaleSellsSelects(orders: seq<OpenOrder>, ask: real, threshold: real)
    ensures |StaleSells(orders, ask, threshold)| <= |orders|
    ensures forall o :: o in StaleSells(orders, ask, threshold) <==> o in orders && IsStaleSell(o, ask, threshold)
  {
    if orders != [] {
      StaleSellsSelects(orders[1..], ask, threshold);
      assert orders == [orders[0]] + orders[1..];
    }
  }

  /** The stale-buy selection is a filter: it splits over concatenation, so it keeps the table's order. */
  lemma {:induction false} StaleBuysConcat(a: seq<OpenOrder>, b: seq<OpenOrder>, bid: real, threshold: real)
    ensures StaleBuys(a + b, bid, threshold) == StaleBuys(a, bid, threshold) + StaleBuys(b, bid, threshold)
  {
    if a != [] {
      assert (a + b)[1..] == a[1..] + b;
      StaleBuysConcat(a[1..], b, bid, threshold);
    } else {
      assert a + b == b;
    }
  }

  /** The stale-sell selection splits over concatenation in the same way. */
  lemma {:induction false} StaleSellsConcat(a: seq<OpenOrder>, b: seq<OpenOrder>, ask: real, threshold: real)
    ensures StaleSells(a + b, ask, threshold) == StaleSells(a, ask, threshold) + StaleSells(b, ask, threshold)
  {
    if a != [] {
      assert (a + b)[1..] == a[1..] + b;
      StaleSellsConcat(a[1..], b, ask, threshold);
    } else {
      assert a + b == b;
    }
  }

  /** Duplicates are kept: each stale buy order occurs as often as in the table, any other order never. */
  lemma {:induction false} StaleBuysCounts(orders: seq<OpenOrder>, bid: real, threshold: real, o: OpenOrder)
    ensures multiset(StaleBuys(orders, bid, threshold))[o] ==
      if IsStaleBuy(o, bid, threshold) then multiset(orders)[o] else 0
  {
    if orders != [] {
      StaleBuysCounts(orders[1..], bid, threshold, o);
      assert orders == [orders[0]] + orders[1..];
    }
  }

  /** Each stale sell order occurs as often as in the table, any other order never. */
  lemma {:induction false} StaleSellsCounts(orders: seq<OpenOrder>, ask: real, threshold: real, o: OpenOrder)
    ensures multiset(StaleSells(orders, ask, threshold))[o] ==
      if IsStaleSell(o, ask, threshold) then multiset(orders)[o] else 0
  {
    if orders != [] {
      StaleSellsCounts(orders[1..], ask, threshold, o);
      assert orders == [orders[0]] + orders[1..];
    }
  }

  /** A buy order is never stale as a sell and a sell order never as a buy. */
  lemma StaleSidesAreDisjoint(orders: seq<OpenOrder>, bid: real, ask: real, threshold: real)
    ensures forall o :: o in StaleBuys(orders, bid, threshold) ==> o.side == Buy && o !in StaleSells(orders, ask, threshold)
  {
    StaleBuysSelects(orders, bid, threshold);
    StaleSellsSelects(orders, ask, threshold);
  }

  /** Aggregated volumes of the displayed order book. */
  datatype OrderBookDepth = OrderBookDepth(buyVolume: real, sellVolume: real, buyCount: nat, sellCount: nat)

  /** Buy volume over sell volume, or 1 when no sell volume is displayed. */
  function Ratio(d: OrderBookDepth): (r: real)
    ensures d.sellVolume > 0.0 ==> r * d.sellVolume == d.buyVolume
    ensures d.sellVolume <= 0.0 ==> r == 1.0
  {
    if d.sellVolume > 0.0 then d.buyVolume / d.sellVolume else 1.0
  }

  /** With sell volume shown, the ratio reaches `t` exactly when buy volume reaches `t` times it. */
  lemma RatioBelowThreshold(d: OrderBookDepth, t: real)
    requires d.sellVolume > 0.0
    ensures Ratio(d) < t <==> d.buyVolume < t * d.sellVolume
  {
    var r := Ratio(d);
    assert r * d.sellVolume == d.buyVolume;
    if r < t {
      assert r * d.sellVolume < t * d.sellVolume;
    } else {
      assert r * d.sellVolume >= t * d.sellVolume;
    }
  }
}
