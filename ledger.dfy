/**
 * The trade ledger: an in-memory, append-only list of completed round trips
 * with their realised profit in the quote currency, and the queries the
 * decision engine asks of it.
 */
module Ledger {
  /** A completed round trip; its creation time is not modelled. */
  datatype TradeRecord = TradeRecord(buyPrice: real, sellPrice: real, volume: real, profit: real)

  /**
   * The record of spending `volume` at `buyPrice` and selling the tokens
   * bought at `sellPrice`: profit is (volume / buyPrice) * sellPrice - volume.
   */
  function MakeRecord(buyPrice: real, sellPrice: real, volume: real): (r: TradeRecord)
    requires buyPrice != 0.0
    ensures r.buyPrice == buyPrice && r.sellPrice == sellPrice && r.volume == volume
  {
    var tokenAmount := volume / buyPrice;
    var sellValue := tokenAmount * sellPrice;
    TradeRecord(buyPrice, sellPrice, volume, sellValue - volume)
  }

  /**
   * The profit is the volume times the relative price change; for a positive
   * buy price and volume it is negative exactly when the sell price is below
   * the buy price and zero exactly when they are equal.
   */
  lemma RecordProfit(b: real, s: real, v: real)
    requires b != 0.0
    ensures MakeRecord(b, s, v).profit * b == v * (s - b)
    ensures b > 0.0 && v > 0.0 ==>
      (MakeRecord(b, s, v).profit < 0.0 <==> s < b) && (MakeRecord(b, s, v).profit == 0.0 <==> s == b)
  {
    var t := v / b;
    assert MakeRecord(b, s, v).profit == t * s - v;
    assert t * b == v;
    assert (t * s - v) * b == t * b * s - v * b;
    if b > 0.0 && v > 0.0 {
      assert t > 0.0;
      assert t * s - v == t * (s - b);
    }
  }

  /** Sum of the profits, folded left to right from 0 as `reduce` does. */
  function TotalProfit(trades: seq<TradeRecord>): real {
    if trades == [] then 0.0 else TotalProfit(trades[..|trades| - 1]) + trades[|trades| - 1].profit
  }

  lemma {:induction false} TotalProfitConcat(a: seq<TradeRecord>, b: seq<TradeRecord>)
    ensures TotalProfit(a + b) == TotalProfit(a) + TotalProfit(b)
  {
    if b != [] {
      assert (a + b)[..|a + b| - 1] == a + b[..|b| - 1];
      TotalProfitConcat(a, b[..|b| - 1]);
    } else {
      assert a + b == a;
    }
  }

  /** A ledger of losing trades only has a negative total. */
  lemma {:induction false} AllLossesTotalNegative(trades: seq<TradeRecord>)
    requires trades != []
    requires forall i :: 0 <= i < |trades| ==> trades[i].profit < 0.0
    ensures TotalProfit(trades) < 0.0
  {
    if |trades| > 1 {
      AllLossesTotalNegative(trades[..|trades| - 1]);
    }
  }

  /** Length of the longest run of losing trades at the end of the ledger. */
  function TrailingLosses(trades: seq<TradeRecord>): nat {
    if trades == [] || trades[|trades| - 1].profit >= 0.0 then 0
    else TrailingLosses(trades[..|trades| - 1]) + 1
  }

  /** The trailing run never exceeds the ledger, and every trade in it lost money. */
  lemma {:induction false} TrailingLossesAreLosses(trades: seq<TradeRecord>)
    ensures TrailingLosses(trades) <= |trades|
    ensures forall i :: |trades| - TrailingLosses(trades) <= i < |trades| ==> trades[i].profit < 0.0
  {
    if trades != [] && trades[|trades| - 1].profit < 0.0 {
      TrailingLossesAreLosses(trades[..|trades| - 1]);
    }
  }

  /** The trailing run is maximal: the trade just before it, if any, did not lose. */
  lemma {:induction false} TrailingLossesMaximal(trades: seq<TradeRecord>)
    ensures TrailingLosses(trades) < |trades| ==>
      trades[|trades| - 1 - TrailingLosses(trades)].profit >= 0.0
  {
    if trades != [] && trades[|trades| - 1].profit < 0.0 {
      TrailingLossesAreLosses(trades[..|trades| - 1]);
      TrailingLossesMaximal(trades[..|trades| - 1]);
    }
  }

  /** A run of `n` losses at the end, preceded by a non-loss or by nothing, is the trailing run. */
  lemma {:induction false} TrailingLossesUnique(trades: seq<TradeRecord>, n: nat)
    requires n <= |trades|
    requires forall i :: |trades| - n <= i < |trades| ==> trades[i].profit < 0.0
    requires n < |trades| ==> trades[|trades| - 1 - n].profit >= 0.0
    ensures TrailingLosses(trades) == n
  {
    if n > 0 {
      var init := trades[..|trades| - 1];
      assert forall i :: |init| - (n - 1) <= i < |init| ==> init[i] == trades[i];
      TrailingLossesUnique(init, n - 1);
    }
  }

  /** A new loss extends the run by one; any other result ends it. */
  lemma TrailingLossesAppend(trades: seq<TradeRecord>, r: TradeRecord)
    ensures TrailingLosses(trades + [r]) == if r.profit < 0.0 then TrailingLosses(trades) + 1 else 0
  {
    assert (trades + [r])[..|trades|] == trades;
  }

  /** Cooldown scaling: 1x, 1.5x, 2x, ... for 0, 1, 2, ... trailing losses. */
  function CooldownMultiplier(losses: nat): (m: real)
    ensures m >= 1.0
    ensures m == 1.0 <==> losses == 0
  {
    1.0 + losses as real * 0.5
  }

  /** Each further consecutive loss adds half of the base cooldown. */
  lemma MultiplierStep(losses: nat)
    requires losses > 0
    ensures CooldownMultiplier(losses) == CooldownMultiplier(losses - 1) + 0.5
  {
  }

  /** After a losing trade the multiplier grows by 0.5; after any other it is back to 1. */
  lemma MultiplierAfterTrade(trades: seq<TradeRecord>, r: TradeRecord)
    ensures r.profit < 0.0 ==>
      CooldownMultiplier(TrailingLosses(trades + [r])) == CooldownMultiplier(TrailingLosses(trades)) + 0.5
    ensures r.profit >= 0.0 ==> CooldownMultiplier(TrailingLosses(trades + [r])) == 1.0
  {
    TrailingLossesAppend(trades, r);
    if r.profit < 0.0 {
      MultiplierStep(TrailingLosses(trades + [r]));
    }
  }

  /** The cooldown length for a random base in [1000, 3000) milliseconds. */
  function CooldownMs(base: real, losses: nat): (ms: real)
    requires 1000.0 <= base < 3000.0
    ensures ms >= base >= 1000.0
    ensures ms < 3000.0 * CooldownMultiplier(losses)
  {
    var m := CooldownMultiplier(losses);
    ScaleBounds(base, m);
    base * m
  }

  /**
   * Without trailing losses the cooldown is the base, and each further
   * trailing loss lengthens it by half the base.
   */
  lemma CooldownGrowsWithLosses(base: real, losses: nat)
    requires 1000.0 <= base < 3000.0
    ensures CooldownMs(base, 0) == base
    ensures CooldownMs(base, losses + 1) == CooldownMs(base, losses) + base / 2.0
  {
    MultiplierStep(losses + 1);
    assert base * (CooldownMultiplier(losses) + 0.5) == base * CooldownMultiplier(losses) + base * 0.5;
  }

  lemma ScaleBounds(base: real, m: real)
    requires 1000.0 <= base < 3000.0 && m >= 1.0
    ensures base * m >= base && base * m < 3000.0 * m
  {
    var e := m - 1.0;
    assert base * m == base + base * e;
    assert 3000.0 * m - base * m == (3000.0 - base) * m;
  }

  class TradeLedger {
    var trades: seq<TradeRecord>

    constructor ()
      ensures trades == []
    {
      trades := [];
    }

    /** Append the record of one completed round trip and return it. */
    method Record(buyPrice: real, sellPrice: real, volume: real) returns (rec: TradeRecord)
      requires buyPrice != 0.0
      modifies this
      ensures rec == MakeRecord(buyPrice, sellPrice, volume)
      ensures trades == old(trades) + [rec]
      ensures TotalProfit(trades) == TotalProfit(old(trades)) + rec.profit
    {
      rec := MakeRecord(buyPrice, sellPrice, volume);
      trades := trades + [rec];
      assert trades[..|trades| - 1] == old(trades);
    }

    method Clear()
      modifies this
      ensures trades == [] && TotalProfit(trades) == 0.0
    {
      trades := [];
    }

    /** Count losing trades backwards from the newest, stopping at the first non-loss. */
    method ConsecutiveLosses() returns (count: nat)
      ensures count == TrailingLosses(trades)
      ensures count <= |trades|
      ensures forall i :: |trades| - count <= i < |trades| ==> trades[i].profit < 0.0
      ensures count < |trades| ==> trades[|trades| - 1 - count].profit >= 0.0
    {
      count := 0;
      var i := |trades| - 1;
      while i >= 0
        invariant -1 <= i < |trades|
        invariant count == |trades| - 1 - i
        invariant forall j :: i < j < |trades| ==> trades[j].profit < 0.0
      {
        if trades[i].profit < 0.0 {
          count := count + 1;
        } else {
          break;
        }
        i := i - 1;
      }
      TrailingLossesUnique(trades, count);
    }
  }
}
