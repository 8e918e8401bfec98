/**
 * The rolling window of mid prices that feeds the momentum check: a FIFO of
 * capacity PriceHistorySize that drops its oldest price on overflow.
 */
module PriceHistory {
  import opened Optional
  import opened Constants

  predicate Positive(h: seq<real>) {
    forall i :: 0 <= i < |h| ==> h[i] > 0.0
  }

  /** Left-to-right sum, as `reduce((a, b) => a + b, 0)` computes it. */
  function Sum(s: seq<real>): real {
    if s == [] then 0.0 else Sum(s[..|s| - 1]) + s[|s| - 1]
  }

  function Mean(s: seq<real>): real
    requires |s| > 0
  {
    Sum(s) / |s| as real
  }

  lemma {:induction false} SumPositive(s: seq<real>)
    requires Positive(s) && |s| > 0
    ensures Sum(s) > 0.0
  {
    if |s| > 1 {
      assert Positive(s[..|s| - 1]);
      SumPositive(s[..|s| - 1]);
    }
  }

  /** The history after pushing `p`: appended last, and the oldest dropped past capacity. */
  function Pushed(h: seq<real>, p: real): (r: seq<real>)
    ensures |r| == if |h| + 1 > PriceHistorySize then |h| else |h| + 1
    ensures r[|r| - 1] == p
    ensures r == (h + [p])[|h| + 1 - |r|..]
  {
    var appended := h + [p];
    if |appended| > PriceHistorySize then appended[1..] else appended
  }

  /** Within capacity, a push keeps every older price in place or evicts exactly the oldest. */
  lemma PushedBounded(h: seq<real>, p: real)
    requires |h| <= PriceHistorySize
    ensures |Pushed(h, p)| == if |h| < PriceHistorySize then |h| + 1 else PriceHistorySize
    ensures |h| < PriceHistorySize ==> Pushed(h, p) == h + [p]
    ensures |h| == PriceHistorySize ==> Pushed(h, p) == h[1..] + [p]
  {
  }

  class History {
    var prices: seq<real>

    ghost predicate Valid()
      reads this
    {
      |prices| <= PriceHistorySize && Positive(prices)
    }

    constructor ()
      ensures Valid() && prices == []
    {
      prices := [];
    }

    /** Push a price; only positive mid prices are ever pushed. */
    method Add(price: real)
      requires Valid() && price > 0.0
      modifies this
      ensures Valid()
      ensures prices == Pushed(old(prices), price)
    {
      prices := prices + [price];
      if |prices| > PriceHistorySize {
        prices := prices[1..];
      }
    }

    method Clear()
      modifies this
      ensures Valid() && prices == []
    {
      prices := [];
    }
  }

  /**
   * Momentum in percent: the mean of the last MomentumSampleSize prices
   * against the mean of the MomentumSampleSize prices before them; no value
   * while the history holds fewer than twice that many.
   */
  function Momentum(h: seq<real>): (r: Option<real>)
    requires Positive(h)
    ensures r.None? <==> |h| < 2 * MomentumSampleSize
    ensures r.Some? ==>
      var recent := h[|h| - MomentumSampleSize..];
      var older := h[|h| - 2 * MomentumSampleSize..|h| - MomentumSampleSize];
      Mean(older) > 0.0 &&
      r.value == (Mean(recent) - Mean(older)) / Mean(older) * 100.0 &&
      (r.value < 0.0 <==> Mean(recent) < Mean(older)) &&
      (r.value == 0.0 <==> Mean(recent) == Mean(older))
  {
    if |h| < 2 * MomentumSampleSize then None
    else
      var recent := h[|h| - MomentumSampleSize..];
      var older := h[|h| - 2 * MomentumSampleSize..|h| - MomentumSampleSize];
      assert Positive(older);
      SumPositive(older);
      var recentAvg := Mean(recent);
      var olderAvg := Mean(older);
      SignOfChange(recentAvg, olderAvg);
      Some((recentAvg - olderAvg) / olderAvg * 100.0)
  }

  lemma SignOfChange(a: real, b: real)
    requires b > 0.0
    ensures (a - b) / b * 100.0 < 0.0 <==> a < b
    ensures (a - b) / b * 100.0 == 0.0 <==> a == b
  {
    var q := (a - b) / b;
    assert q * b == a - b;
    if a < b {
      assert q < 0.0;
    } else if a > b {
      assert q > 0.0;
    }
  }

  /** Momentum only looks at the last 2 * MomentumSampleSize prices. */
  lemma {:induction false} MomentumWindow(h: seq<real>, older: seq<real>)
    requires Positive(older + h) && |h| >= 2 * MomentumSampleSize
    ensures Positive(h)
    ensures Momentum(older + h) == Momentum(h)
  {
    var w := older + h;
    assert forall i :: 0 <= i < |h| ==> h[i] == w[|older| + i];
    var n := MomentumSampleSize;
    assert w[|w| - n..] == h[|h| - n..];
    assert w[|w| - 2 * n..|w| - n] == h[|h| - 2 * n..|h| - n];
  }
}
