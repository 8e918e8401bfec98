/**
 * The auto-trade loop: a poll tick that detects completed round trips,
 * records them, stops on max loss or the order limit, cancels stale orders
 * and cuts losses, and otherwise places a new paired order when the gap is
 * small and the gate passes. The component's refs and state are the fields
 * of AutoTrader; the page is an input to each tick and every click on it is
 * appended to an action trace.
 */
module AutoTrade {
  import opened Optional
  import opened Market
  import opened SettingsStore
  import opened Ledger
  import opened PriceHistory
  import opened Decision

  datatype Status = Idle | Ready | CoolingDown | WaitingOrder | Cancelling | CutLoss | Skipping

  /** The clicks and form entries the trader performs on the page. */
  datatype Action =
    | CancelOrder(order: OpenOrder)
    | CutLossSell
    | SetBuyPrice(price: real)
    | SetSellPrice(price: real)
    | SetVolume(volume: real)
    | SubmitBuy

  /** What the order form offers when an order is placed. */
  datatype FormEnv = FormEnv(
    quote: Quote,                 // prices re-read just before filling the form
    reverseOrderCheckbox: bool,   // its absence aborts the placement
    priceInput: bool,
    sellPriceInput: bool,
    volumeInput: bool,
    buyButton: bool)

  /** Everything one tick observes of the page. */
  datatype TickInput = TickInput(
    quote: Quote,
    rowsPresent: bool,            // the open-orders table has rows
    orders: seq<OpenOrder>,       // the rows that parse as orders
    depth: OrderBookDepth,
    form: FormEnv,
    cooldownBase: real)           // the random base in [1000, 3000) ms

  predicate WellFormed(inp: TickInput) {
    (inp.orders != [] ==> inp.rowsPresent) && 1000.0 <= inp.cooldownBase < 3000.0
  }

  /** The whole state of the trader and of the ledger and history it owns. */
  datatype Machine = Machine(
    running: bool,
    status: Status,
    orderCount: nat,
    coolingDown: bool,
    hadOpenOrders: bool,
    lastBuyPrice: Option<real>,
    lastSellPrice: Option<real>,
    skipReason: Option<Reason>,
    cooldownMs: real,
    trades: seq<TradeRecord>,
    prices: seq<real>,
    actions: seq<Action>)

  /** The invariant every reachable state keeps. */
  predicate Inv(m: Machine) {
    |m.prices| <= Constants.PriceHistorySize && Positive(m.prices) &&
    m.orderCount == |m.trades| &&
    (m.running <==> m.status != Idle) &&
    (m.coolingDown <==> m.status == CoolingDown)
  }

  /** JavaScript truthiness of a captured fill price. */
  predicate Captured(p: Option<real>) {
    p.Some? && p.value != 0.0
  }

  function Cancels(orders: seq<OpenOrder>): (r: seq<Action>)
    ensures |r| == |orders|
    ensures forall i :: 0 <= i < |r| ==> r[i] == CancelOrder(orders[i])
  {
    if orders == [] then [] else Cancels(orders[..|orders| - 1]) + [CancelOrder(orders[|orders| - 1])]
  }

  lemma CancelsAreOf(orders: seq<OpenOrder>)
    ensures forall a :: a in Cancels(orders) ==> a.CancelOrder? && a.order in orders
  {
    var r := Cancels(orders);
    forall a | a in r
      ensures a.CancelOrder? && a.order in orders
    {
      var i :| 0 <= i < |r| && r[i] == a;
      assert a == CancelOrder(orders[i]);
    }
  }

  /** Whether the cancel/cut-loss step acted (the source's return value). */
  predicate DidCancel(orders: seq<OpenOrder>, q: Quote, t: real) {
    orders != [] && (StaleBuys(orders, q.bid, t) != [] || StaleSells(orders, q.ask, t) != [])
  }

  /** Every cancel in `acts` is of an order of `orders` that is stale on its own side. */
  predicate CancelsOnlyStale(acts: seq<Action>, orders: seq<OpenOrder>, q: Quote, t: real) {
    forall a :: a in acts && a.CancelOrder? ==>
      a.order in orders && (IsStaleBuy(a.order, q.bid, t) || IsStaleSell(a.order, q.ask, t))
  }

  predicate HasCancel(acts: seq<Action>) {
    exists a :: a in acts && (a.CancelOrder? || a.CutLossSell?)
  }

  /** The clicks that fill and submit a new order. */
  predicate IsPlacement(a: Action) {
    a.SetBuyPrice? || a.SetSellPrice? || a.SetVolume? || a.SubmitBuy?
  }

  predicate HasPlacement(acts: seq<Action>) {
    exists a :: a in acts && IsPlacement(a)
  }

  function CutLossCount(acts: seq<Action>): nat {
    if acts == [] then 0 else CutLossCount(acts[..|acts| - 1]) + (if acts[|acts| - 1].CutLossSell? then 1 else 0)
  }

  lemma {:induction false} CutLossCountAppend(a: seq<Action>, b: seq<Action>)
    ensures CutLossCount(a + b) == CutLossCount(a) + CutLossCount(b)
  {
    if b != [] {
      assert (a + b)[..|a + b| - 1] == a + b[..|b| - 1];
      CutLossCountAppend(a, b[..|b| - 1]);
    } else {
      assert a + b == a;
    }
  }

  lemma {:induction false} NoCutLossWithout(acts: seq<Action>)
    requires forall a :: a in acts ==> !a.CutLossSell?
    ensures CutLossCount(acts) == 0
  {
    if acts != [] {
      assert acts[|acts| - 1] in acts;
      assert forall a :: a in acts[..|acts| - 1] ==> a in acts;
      NoCutLossWithout(acts[..|acts| - 1]);
    }
  }

  /**
   * The clicks of the cancel/cut-loss step: cancel every stale buy order in
   * table order, then every stale sell order followed by one cut-loss.
   */
  function CancelClicks(orders: seq<OpenOrder>, q: Quote, t: real): seq<Action> {
    (if StaleBuys(orders, q.bid, t) != [] then Cancels(StaleBuys(orders, q.bid, t)) else []) +
    (if StaleSells(orders, q.ask, t) != [] then Cancels(StaleSells(orders, q.ask, t)) + [CutLossSell] else [])
  }

  /**
   * The cancel/cut-loss clicks cancel only stale orders of the list, contain
   * nothing but cancels and cut-losses, contain the cut-loss exactly once
   * when a sell order is stale, and are empty exactly when nothing is stale.
   */
  lemma CancelClicksShape(orders: seq<OpenOrder>, q: Quote, t: real)
    ensures var r := CancelClicks(orders, q, t);
      CancelsOnlyStale(r, orders, q, t) &&
      (forall a :: a in r ==> a.CancelOrder? || a.CutLossSell?) &&
      CutLossCount(r) == (if StaleSells(orders, q.ask, t) != [] then 1 else 0) &&
      (r == [] <==> StaleBuys(orders, q.bid, t) == [] && StaleSells(orders, q.ask, t) == [])
  {
    var staleBuys := StaleBuys(orders, q.bid, t);
    var staleSells := StaleSells(orders, q.ask, t);
    var buyPart := if staleBuys != [] then Cancels(staleBuys) else [];
    var sellPart := if staleSells != [] then Cancels(staleSells) + [CutLossSell] else [];
    StaleBuysSelects(orders, q.bid, t);
    StaleSellsSelects(orders, q.ask, t);
    CancelsAreOf(staleBuys);
    CancelsAreOf(staleSells);
    assert forall a :: a in buyPart ==> a.CancelOrder? && a.order in staleBuys;
    assert forall a :: a in sellPart ==> a.CutLossSell? || (a.CancelOrder? && a.order in staleSells);
    assert forall a :: a in buyPart + sellPart ==> a in buyPart || a in sellPart;
    NoCutLossWithout(buyPart);
    NoCutLossWithout(Cancels(staleSells));
    CutLossCountAppend(Cancels(staleSells), [CutLossSell]);
    assert CutLossCount([CutLossSell]) == 1;
    CutLossCountAppend(buyPart, sellPart);
  }

  /**
   * The cancel/cut-loss step: with stale orders it emits their cancels (and
   * the cut-loss), shows cancelling or cut-loss, and clears both captured
   * fills; otherwise it changes nothing.
   */
  function AfterCancel(m: Machine, orders: seq<OpenOrder>, q: Quote, t: real): Machine {
    if !DidCancel(orders, q, t) then m
    else
      m.(status := if StaleSells(orders, q.ask, t) != [] then CutLoss else Cancelling,
         actions := m.actions + CancelClicks(orders, q, t),
         lastBuyPrice := None, lastSellPrice := None)
  }

  /** The slippage for one side: the dynamic one when given and enabled, else the fixed one. */
  function SlippageFor(dynamicSlippage: Option<real>, s: Settings, fixed: real): real {
    if dynamicSlippage.Some? && s.enableDynamicSlippage then dynamicSlippage.value else fixed
  }

  /** The buy limit: the ask raised by the buy slippage. */
  function BuyLimit(form: FormEnv, dynamicSlippage: Option<real>, s: Settings): real {
    form.quote.ask * (1.0 + SlippageFor(dynamicSlippage, s, s.buySlippage) / 100.0)
  }

  /** The reverse-order sell limit: the bid (or the ask) lowered by the sell slippage. */
  function SellLimit(form: FormEnv, dynamicSlippage: Option<real>, s: Settings): real {
    var reference := if s.useBuyPriceAsSellPrice then form.quote.ask else form.quote.bid;
    reference * (1.0 - SlippageFor(dynamicSlippage, s, s.sellSlippage) / 100.0)
  }

  /** The form can be filled: prices re-read and the reverse-order checkbox found. */
  predicate FormUsable(form: FormEnv) {
    HasPrices(form.quote) && form.reverseOrderCheckbox
  }

  /** The clicks of order placement, skipping each input or button that is missing. */
  function PlacementClicks(dynamicSlippage: Option<real>, s: Settings, form: FormEnv): (r: seq<Action>)
    ensures forall a :: a in r ==> IsPlacement(a)
    ensures SubmitBuy in r <==> form.buyButton
  {
    (if form.priceInput then [SetBuyPrice(BuyLimit(form, dynamicSlippage, s))] else []) +
    (if form.sellPriceInput then [SetSellPrice(SellLimit(form, dynamicSlippage, s))] else []) +
    (if form.volumeInput then [SetVolume(s.volume)] else []) +
    (if form.buyButton then [SubmitBuy] else [])
  }

  /**
   * Order placement: re-read the prices, make sure the reverse order is on,
   * fill buy price, sell price and volume where the inputs exist (capturing
   * each fill price that was entered), and press buy where the button exists.
   */
  function AfterExecute(m: Machine, dynamicSlippage: Option<real>, s: Settings, form: FormEnv): Machine {
    if !FormUsable(form) then m
    else
      m.(actions := m.actions + PlacementClicks(dynamicSlippage, s, form),
         lastBuyPrice := if form.priceInput then Some(BuyLimit(form, dynamicSlippage, s)) else m.lastBuyPrice,
         lastSellPrice := if form.sellPriceInput then Some(SellLimit(form, dynamicSlippage, s)) else m.lastSellPrice)
  }

  /** The part of a tick after cycle detection: cancel, wait, skip, place or idle. */
  function ProceedSpec(m: Machine, inp: TickInput, s: Settings): Machine
    requires HasPrices(inp.quote) && Positive(m.prices) && 1000.0 <= inp.cooldownBase < 3000.0
  {
    var q := inp.quote;
    if DidCancel(inp.orders, q, s.cancelThreshold) then
      var m1 := AfterCancel(m, inp.orders, q, s.cancelThreshold);
      m1.(coolingDown := true, status := CoolingDown,
          cooldownMs := CooldownMs(inp.cooldownBase, TrailingLosses(m1.trades)))
    else if inp.rowsPresent then m.(status := WaitingOrder)
    else if Abs(Gap(q)) < s.gapThreshold then
      var decision := CheckTradeConditions(q, s, m.trades, m.prices, inp.depth);
      if !decision.canTrade then m.(status := Skipping, skipReason := Some(decision.reason))
      else
        var m1 := AfterExecute(m.(coolingDown := true, status := CoolingDown), decision.dynamicSlippage, s, inp.form);
        m1.(cooldownMs := CooldownMs(inp.cooldownBase, TrailingLosses(m1.trades)))
    else m.(status := Ready)
  }

  /** A round trip completed since the previous tick: orders were open and are gone, both fills captured. */
  predicate CycleCompleted(m: Machine, inp: TickInput) {
    m.hadOpenOrders && !inp.rowsPresent && Captured(m.lastBuyPrice) && Captured(m.lastSellPrice)
  }

  /** The record a completed cycle appends: the captured fills and the configured volume. */
  function CycleRecord(m: Machine, s: Settings): TradeRecord
    requires Captured(m.lastBuyPrice) && m.lastSellPrice.Some?
  {
    MakeRecord(m.lastBuyPrice.value, m.lastSellPrice.value, s.volume)
  }

  /** A completed cycle recorded: one more order, its trade appended, the fills cleared. */
  function Recorded(m: Machine, s: Settings): Machine
    requires Captured(m.lastBuyPrice) && m.lastSellPrice.Some?
  {
    m.(orderCount := m.orderCount + 1, trades := m.trades + [CycleRecord(m, s)],
       lastBuyPrice := None, lastSellPrice := None)
  }

  /** After recording, the run stops: the maximum loss or the order limit is reached. */
  predicate StopsAfterRecord(m: Machine, s: Settings)
    requires Captured(m.lastBuyPrice) && m.lastSellPrice.Some?
  {
    var r := Recorded(m, s);
    TotalProfit(r.trades) < -s.maxLoss || (s.orderLimit > 0.0 && r.orderCount as real >= s.orderLimit)
  }

  /** The stop after recording: idle, with the maximum-loss reason when that is the cause. */
  function Stopped(m: Machine, s: Settings): Machine
    requires Captured(m.lastBuyPrice) && m.lastSellPrice.Some?
  {
    var r := Recorded(m, s);
    var total := TotalProfit(r.trades);
    if total < -s.maxLoss then r.(running := false, status := Idle, skipReason := Some(MaxLossReached(total)))
    else r.(running := false, status := Idle)
  }

  /** The tick gets past cycle detection to its cancel/wait/place stage. */
  predicate Proceeds(m: Machine, inp: TickInput, s: Settings) {
    HasPrices(inp.quote) && !m.coolingDown && (CycleCompleted(m, inp) ==> !StopsAfterRecord(m, s))
  }

  /** The machine a tick hands to its cancel/wait/place stage. */
  function Staged(m: Machine, inp: TickInput, s: Settings): Machine {
    var m0 := m.(skipReason := None);
    (if CycleCompleted(m0, inp) then Recorded(m0, s) else m0).(hadOpenOrders := inp.rowsPresent)
  }

  /**
   * One poll tick of the trader: nothing without prices; clear the skip
   * reason; nothing more while cooling down; record a completed cycle and
   * stop when a limit is reached; otherwise cancel, wait, skip, place or idle.
   */
  function TickSpec(m: Machine, inp: TickInput, s: Settings): Machine
    requires Positive(m.prices) && WellFormed(inp)
  {
    var m0 := m.(skipReason := None);
    if !HasPrices(inp.quote) then m
    else if m0.coolingDown then m0
    else if CycleCompleted(m0, inp) && StopsAfterRecord(m0, s) then Stopped(m0, s)
    else ProceedSpec(Staged(m, inp, s), inp, s)
  }

  /** The start/stop button. */
  function ToggleSpec(m: Machine): Machine {
    if m.running then
      m.(running := false, coolingDown := false, status := Idle, skipReason := None)
    else
      m.(orderCount := 0, hadOpenOrders := false, lastBuyPrice := None, lastSellPrice := None,
         trades := [], prices := [], skipReason := None, running := true, coolingDown := false,
         status := Ready)
  }

  /** The cooldown timer firing; a timer is pending exactly while cooling down. */
  function CooldownSpec(m: Machine): Machine {
    if m.coolingDown then m.(coolingDown := false, status := Ready) else m
  }

  class AutoTrader {
    var running: bool
    var status: Status
    var orderCount: nat
    var coolingDown: bool
    var hadOpenOrders: bool
    var lastBuyPrice: Option<real>
    var lastSellPrice: Option<real>
    var skipReason: Option<Reason>
    var cooldownMs: real
    var actions: seq<Action>
    const ledger: TradeLedger
    const history: History

    ghost function State(): Machine
      reads this, ledger, history
    {
      Machine(running, status, orderCount, coolingDown, hadOpenOrders, lastBuyPrice, lastSellPrice,
              skipReason, cooldownMs, ledger.trades, history.prices, actions)
    }

    ghost predicate Valid()
      reads this, ledger, history
    {
      Inv(State())
    }

    constructor ()
      ensures Valid() && fresh(ledger) && fresh(history)
      ensures State() == Machine(false, Idle, 0, false, false, None, None, None, 0.0, [], [], [])
    {
      running, status, orderCount, coolingDown, hadOpenOrders := false, Idle, 0, false, false;
      lastBuyPrice, lastSellPrice, skipReason, cooldownMs, actions := None, None, None, 0.0, [];
      ledger := new TradeLedger();
      history := new History();
    }

    /** Cancel the given orders one by one, in table order. */
    method CancelEach(orders: seq<OpenOrder>)
      modifies this`actions
      ensures actions == old(actions) + Cancels(orders)
    {
      var i := 0;
      while i < |orders|
        invariant 0 <= i <= |orders|
        invariant actions == old(actions) + Cancels(orders[..i])
      {
        actions := actions + [CancelOrder(orders[i])];
        assert orders[..i + 1][..i] == orders[..i];
        i := i + 1;
      }
      assert orders[..i] == orders;
    }

    /** Click cancel on each stale buy order, then on each stale sell order followed by cut-loss. */
    method ClickCancels(orders: seq<OpenOrder>, q: Quote, t: real)
      modifies this`actions
      ensures actions == old(actions) + CancelClicks(orders, q, t)
    {
      var staleBuys := StaleBuys(orders, q.bid, t);
      var staleSells := StaleSells(orders, q.ask, t);
      ghost var buyPart: seq<Action> := if staleBuys != [] then Cancels(staleBuys) else [];
      ghost var sellPart: seq<Action> := if staleSells != [] then Cancels(staleSells) + [CutLossSell] else [];
      assert CancelClicks(orders, q, t) == buyPart + sellPart;
      if staleBuys != [] {
        CancelEach(staleBuys);
      }
      assert actions == old(actions) + buyPart;
      if staleSells != [] {
        CancelEach(staleSells);
        actions := actions + [CutLossSell];
      }
      assert actions == (old(actions) + buyPart) + sellPart;
    }

    method HandleCancelAndCutLoss(q: Quote, orders: seq<OpenOrder>, t: real) returns (did: bool)
      modifies this
      ensures did == DidCancel(orders, q, t)
      ensures State() == AfterCancel(old(State()), orders, q, t)
    {
      if orders == [] {
        return false;
      }
      var staleBuys := StaleBuys(orders, q.bid, t);
      var staleSells := StaleSells(orders, q.ask, t);
      if staleBuys == [] && staleSells == [] {
        return false;
      }
      ClickCancels(orders, q, t);
      status := if staleSells != [] then CutLoss else Cancelling;
      lastBuyPrice := None;
      lastSellPrice := None;
      return true;
    }

    method ExecuteAutoTrade(dynamicSlippage: Option<real>, s: Settings, form: FormEnv)
      modifies this
      ensures State() == AfterExecute(old(State()), dynamicSlippage, s, form)
    {
      if !HasPrices(form.quote) || !form.reverseOrderCheckbox {
        return;
      }
      var clicks: seq<Action> := [];
      var buyFill, sellFill := lastBuyPrice, lastSellPrice;
      if form.priceInput {
        var bp := BuyLimit(form, dynamicSlippage, s);
        clicks := clicks + [SetBuyPrice(bp)];
        buyFill := Some(bp);
      }
      if form.sellPriceInput {
        var sp := SellLimit(form, dynamicSlippage, s);
        clicks := clicks + [SetSellPrice(sp)];
        sellFill := Some(sp);
      }
      if form.volumeInput {
        clicks := clicks + [SetVolume(s.volume)];
      }
      if form.buyButton {
        clicks := clicks + [SubmitBuy];
      }
      assert clicks == PlacementClicks(dynamicSlippage, s, form);
      actions := actions + clicks;
      lastBuyPrice, lastSellPrice := buyFill, sellFill;
    }

    /** Arm the cooldown timer, scaled by the trailing losses of the ledger. */
    method StartCooldown(base: real)
      requires 1000.0 <= base < 3000.0
      modifies this
      ensures State() == old(State()).(coolingDown := true, status := CoolingDown,
                                       cooldownMs := CooldownMs(base, TrailingLosses(ledger.trades)))
    {
      coolingDown := true;
      status := CoolingDown;
      var losses := ledger.ConsecutiveLosses();
      cooldownMs := CooldownMs(base, losses);
    }

    method Proceed(inp: TickInput, s: Settings)
      requires HasPrices(inp.quote) && Positive(history.prices) && 1000.0 <= inp.cooldownBase < 3000.0
      modifies this
      ensures State() == ProceedSpec(old(State()), inp, s)
    {
      var q := inp.quote;
      var did := HandleCancelAndCutLoss(q, inp.orders, s.cancelThreshold);
      if did {
        StartCooldown(inp.cooldownBase);
        return;
      }
      if inp.rowsPresent {
        status := WaitingOrder;
        return;
      }
      if Abs(Gap(q)) < s.gapThreshold {
        var decision := CheckTradeConditions(q, s, ledger.trades, history.prices, inp.depth);
        if !decision.canTrade {
          status := Skipping;
          skipReason := Some(decision.reason);
          return;
        }
        coolingDown := true;
        status := CoolingDown;
        ExecuteAutoTrade(decision.dynamicSlippage, s, inp.form);
        var losses := ledger.ConsecutiveLosses();
        cooldownMs := CooldownMs(inp.cooldownBase, losses);
      } else {
        status := Ready;
      }
    }

    /**
     * Record a completed cycle in the ledger and stop when the maximum loss or
     * the order limit is reached.
     */
    method RecordCompletedCycle(s: Settings) returns (stopped: bool)
      requires Captured(lastBuyPrice) && Captured(lastSellPrice)
      modifies this, ledger
      ensures stopped == StopsAfterRecord(old(State()), s)
      ensures State() == if stopped then Stopped(old(State()), s) else Recorded(old(State()), s)
    {
      ghost var recorded := Recorded(State(), s);
      var newCount := orderCount + 1;
      orderCount := newCount;
      var rec := ledger.Record(lastBuyPrice.value, lastSellPrice.value, s.volume);
      lastBuyPrice := None;
      lastSellPrice := None;
      assert State() == recorded;
      var totalProfit := TotalProfit(ledger.trades);
      if totalProfit < -s.maxLoss {
        running := false;
        status := Idle;
        skipReason := Some(MaxLossReached(totalProfit));
        return true;
      }
      if s.orderLimit > 0.0 && newCount as real >= s.orderLimit {
        running := false;
        status := Idle;
        return true;
      }
      return false;
    }

    /** One poll tick (checkAndTrade); ticks are only scheduled while running. */
    method Tick(inp: TickInput, s: Settings)
      requires Valid() && running && WellFormed(inp)
      modifies this, ledger
      ensures Valid()
      ensures State() == TickSpec(old(State()), inp, s)
    {
      ghost var m := State();
      TickPreservesInv(m, inp, s);
      var q := inp.quote;
      if !HasPrices(q) {
        return;
      }
      skipReason := None;
      if coolingDown {
        return;
      }
      var currentlyHasOrders := inp.rowsPresent;
      if hadOpenOrders && !currentlyHasOrders && Captured(lastBuyPrice) && Captured(lastSellPrice) {
        var stopped := RecordCompletedCycle(s);
        if stopped {
          return;
        }
      }
      hadOpenOrders := currentlyHasOrders;
      assert State() == Staged(m, inp, s);
      Proceed(inp, s);
    }

    method HandleToggle()
      requires Valid()
      modifies this, ledger, history
      ensures Valid()
      ensures State() == ToggleSpec(old(State()))
    {
      if running {
        running := false;
        coolingDown := false;
        status := Idle;
        skipReason := None;
      } else {
        ledger.Clear();
        history.Clear();
        orderCount, hadOpenOrders, lastBuyPrice, lastSellPrice := 0, false, None, None;
        skipReason, running, coolingDown, status := None, true, false, Ready;
      }
    }

    /** The cooldown timer fires. */
    method CooldownElapsed()
      requires Valid()
      modifies this
      ensures Valid()
      ensures State() == CooldownSpec(old(State()))
    {
      if coolingDown {
        coolingDown := false;
        status := Ready;
      }
    }
  }

  // ---------------------------------------------------------------------
  // Properties of the tick

  lemma AfterCancelKeeps(m: Machine, orders: seq<OpenOrder>, q: Quote, t: real)
    ensures var r := AfterCancel(m, orders, q, t);
      r.running == m.running && r.orderCount == m.orderCount && r.coolingDown == m.coolingDown &&
      r.trades == m.trades && r.prices == m.prices && r.skipReason == m.skipReason &&
      r.hadOpenOrders == m.hadOpenOrders
    ensures !DidCancel(orders, q, t) ==> AfterCancel(m, orders, q, t) == m
  {
  }

  lemma AfterExecuteKeeps(m: Machine, d: Option<real>, s: Settings, form: FormEnv)
    ensures var r := AfterExecute(m, d, s, form);
      r.running == m.running && r.status == m.status && r.orderCount == m.orderCount &&
      r.coolingDown == m.coolingDown && r.trades == m.trades && r.prices == m.prices &&
      r.skipReason == m.skipReason && r.hadOpenOrders == m.hadOpenOrders
  {
  }

  /** A tick that gets past cycle detection is its later stage run on the staged machine. */
  lemma TickProceeds(m: Machine, inp: TickInput, s: Settings)
    requires Positive(m.prices) && WellFormed(inp)
    ensures Positive(Staged(m, inp, s).prices) && Staged(m, inp, s).prices == m.prices
    ensures Proceeds(m, inp, s) ==> TickSpec(m, inp, s) == ProceedSpec(Staged(m, inp, s), inp, s)
    ensures !Proceeds(m, inp, s) ==> TickSpec(m, inp, s).actions == m.actions
  {
  }

  /** Every tick keeps the invariant. */
  lemma TickPreservesInv(m: Machine, inp: TickInput, s: Settings)
    requires Inv(m) && m.running && WellFormed(inp)
    ensures Inv(TickSpec(m, inp, s))
  {
    TickProceeds(m, inp, s);
    if Proceeds(m, inp, s) {
      ProceedPreservesInv(Staged(m, inp, s), inp, s);
    }
  }

  lemma ProceedPreservesInv(m: Machine, inp: TickInput, s: Settings)
    requires Inv(m) && m.running && !m.coolingDown && HasPrices(inp.quote) && WellFormed(inp)
    ensures Inv(ProceedSpec(m, inp, s))
  {
    AfterCancelKeeps(m, inp.orders, inp.quote, s.cancelThreshold);
    if !DidCancel(inp.orders, inp.quote, s.cancelThreshold) && !inp.rowsPresent
       && Abs(Gap(inp.quote)) < s.gapThreshold {
      var decision := CheckTradeConditions(inp.quote, s, m.trades, m.prices, inp.depth);
      AfterExecuteKeeps(m.(coolingDown := true, status := CoolingDown), decision.dynamicSlippage, s, inp.form);
    }
  }

  /** Starting, stopping and the cooldown timer keep the invariant. */
  lemma ToggleAndCooldownPreserveInv(m: Machine)
    requires Inv(m)
    ensures Inv(ToggleSpec(m)) && Inv(CooldownSpec(m))
  {
  }

  lemma ProceedKeeps(m: Machine, inp: TickInput, s: Settings)
    requires HasPrices(inp.quote) && Positive(m.prices) && WellFormed(inp)
    ensures var r := ProceedSpec(m, inp, s);
      r.trades == m.trades && r.orderCount == m.orderCount && r.prices == m.prices && r.running == m.running
  {
    AfterCancelKeeps(m, inp.orders, inp.quote, s.cancelThreshold);
    if !DidCancel(inp.orders, inp.quote, s.cancelThreshold) && !inp.rowsPresent
       && Abs(Gap(inp.quote)) < s.gapThreshold {
      var decision := CheckTradeConditions(inp.quote, s, m.trades, m.prices, inp.depth);
      AfterExecuteKeeps(m.(coolingDown := true, status := CoolingDown), decision.dynamicSlippage, s, inp.form);
    }
  }

  /**
   * A tick appends exactly one trade record, with the captured fills and the
   * configured volume, when a cycle has completed, and leaves the ledger and
   * the count alone otherwise.
   */
  lemma TickRecordsOnlyCompletedCycles(m: Machine, inp: TickInput, s: Settings)
    requires Positive(m.prices) && WellFormed(inp)
    ensures var r := TickSpec(m, inp, s);
      var completes := HasPrices(inp.quote) && !m.coolingDown && CycleCompleted(m, inp);
      (completes ==> r.trades == m.trades + [CycleRecord(m, s)] && r.orderCount == m.orderCount + 1) &&
      (!completes ==> r.trades == m.trades && r.orderCount == m.orderCount)
  {
    TickProceeds(m, inp, s);
    if Proceeds(m, inp, s) {
      ProceedKeeps(Staged(m, inp, s), inp, s);
    }
  }

  /**
   * After recording, a total below minus the maximum loss stops the run in
   * idle with that reason and no further step; otherwise a reached order
   * limit stops it in idle. Both leave the fills cleared and click nothing.
   */
  lemma TickStopsAfterRecord(m: Machine, inp: TickInput, s: Settings)
    requires Positive(m.prices) && WellFormed(inp)
    requires HasPrices(inp.quote) && !m.coolingDown && CycleCompleted(m, inp)
    ensures var r := TickSpec(m, inp, s);
      var total := TotalProfit(m.trades + [CycleRecord(m, s)]);
      (StopsAfterRecord(m, s) ==>
        !r.running && r.status == Idle && r.actions == m.actions &&
        r.lastBuyPrice == None && r.lastSellPrice == None && r.hadOpenOrders == m.hadOpenOrders) &&
      (total < -s.maxLoss ==> r.skipReason == Some(MaxLossReached(total))) &&
      (!(total < -s.maxLoss) && StopsAfterRecord(m, s) ==> r.skipReason == None) &&
      (!StopsAfterRecord(m, s) ==> r.running == m.running)
  {
    TickProceeds(m, inp, s);
    if !StopsAfterRecord(m, s) {
      ProceedKeeps(Staged(m, inp, s), inp, s);
    }
  }

  /** While cooling down a tick changes nothing but clearing the skip reason. */
  lemma TickWhileCoolingIsInert(m: Machine, inp: TickInput, s: Settings)
    requires Positive(m.prices) && WellFormed(inp) && m.coolingDown
    ensures var r := TickSpec(m, inp, s);
      r.orderCount == m.orderCount && r.trades == m.trades && r.actions == m.actions &&
      r.status == m.status && r.coolingDown && r.lastBuyPrice == m.lastBuyPrice &&
      r.lastSellPrice == m.lastSellPrice && r.hadOpenOrders == m.hadOpenOrders &&
      r == (if HasPrices(inp.quote) then m.(skipReason := None) else m)
  {
  }

  /** The clicks a cancelling later stage appends, and the state it leaves. */
  lemma ProceedCancelActions(m: Machine, inp: TickInput, s: Settings)
    requires HasPrices(inp.quote) && Positive(m.prices) && WellFormed(inp)
    requires DidCancel(inp.orders, inp.quote, s.cancelThreshold)
    ensures var r := ProceedSpec(m, inp, s);
      r.actions == m.actions + CancelClicks(inp.orders, inp.quote, s.cancelThreshold) &&
      r.lastBuyPrice == None && r.lastSellPrice == None && r.coolingDown && r.status == CoolingDown
  {
  }

  /** The clicks a non-cancelling later stage appends, and the state it leaves. */
  lemma ProceedPlaceActions(m: Machine, inp: TickInput, s: Settings)
    requires HasPrices(inp.quote) && Positive(m.prices) && WellFormed(inp)
    requires !DidCancel(inp.orders, inp.quote, s.cancelThreshold)
    ensures var r := ProceedSpec(m, inp, s);
      var q := inp.quote;
      var d := CheckTradeConditions(q, s, m.trades, m.prices, inp.depth);
      var placing := !inp.rowsPresent && Abs(Gap(q)) < s.gapThreshold && d.canTrade;
      (placing ==>
        r.actions == m.actions + (if FormUsable(inp.form) then PlacementClicks(d.dynamicSlippage, s, inp.form) else []) &&
        r.coolingDown && r.status == CoolingDown) &&
      (!placing ==> r.actions == m.actions)
  {
    var q := inp.quote;
    var d := CheckTradeConditions(q, s, m.trades, m.prices, inp.depth);
    if !inp.rowsPresent && Abs(Gap(q)) < s.gapThreshold && d.canTrade {
      AfterExecuteKeeps(m.(coolingDown := true, status := CoolingDown), d.dynamicSlippage, s, inp.form);
    }
  }

  /**
   * The later stage of a tick took `m` to `r` clicking only what it may: the
   * trace only grows; every cancel is of a stale order of the list; the
   * cut-loss is issued once when a sell order is stale and never otherwise;
   * a cancel or cut-loss leaves both fills cleared and the trader cooling
   * down; a placement happens only with nothing stale or open, a small gap
   * and a passing gate, and leaves the trader cooling down.
   */
  predicate StageClicksAllowed(m: Machine, r: Machine, inp: TickInput, s: Settings)
    requires HasPrices(inp.quote) && Positive(m.prices)
  {
    var q := inp.quote;
    var t := s.cancelThreshold;
    m.actions <= r.actions &&
    var added := r.actions[|m.actions|..];
    CancelsOnlyStale(added, inp.orders, q, t) &&
    CutLossCount(added) == (if StaleSells(inp.orders, q.ask, t) != [] then 1 else 0) &&
    (HasCancel(added) ==>
      r.lastBuyPrice == None && r.lastSellPrice == None && r.coolingDown && r.status == CoolingDown) &&
    (HasPlacement(added) ==>
      !DidCancel(inp.orders, q, t) && !inp.rowsPresent && Abs(Gap(q)) < s.gapThreshold &&
      CheckTradeConditions(q, s, m.trades, m.prices, inp.depth).canTrade &&
      r.coolingDown && r.status == CoolingDown)
  }

  lemma CancelClicksAllowed(m: Machine, r: Machine, inp: TickInput, s: Settings)
    requires HasPrices(inp.quote) && Positive(m.prices)
    requires DidCancel(inp.orders, inp.quote, s.cancelThreshold)
    requires r.actions == m.actions + CancelClicks(inp.orders, inp.quote, s.cancelThreshold)
    requires r.lastBuyPrice == None && r.lastSellPrice == None && r.coolingDown && r.status == CoolingDown
    ensures StageClicksAllowed(m, r, inp, s)
  {
    var clicks := CancelClicks(inp.orders, inp.quote, s.cancelThreshold);
    CancelClicksShape(inp.orders, inp.quote, s.cancelThreshold);
    var added := r.actions[|m.actions|..];
    assert added == clicks;
    assert !HasPlacement(added) by {
      forall a | a in added
        ensures !IsPlacement(a)
      {
      }
    }
  }

  lemma PlacementClicksAllowed(m: Machine, r: Machine, inp: TickInput, s: Settings, clicks: seq<Action>)
    requires HasPrices(inp.quote) && Positive(m.prices) && WellFormed(inp)
    requires !DidCancel(inp.orders, inp.quote, s.cancelThreshold)
    requires forall a :: a in clicks ==> IsPlacement(a)
    requires r.actions == m.actions + clicks
    requires clicks != [] ==>
      !inp.rowsPresent && Abs(Gap(inp.quote)) < s.gapThreshold &&
      CheckTradeConditions(inp.quote, s, m.trades, m.prices, inp.depth).canTrade &&
      r.coolingDown && r.status == CoolingDown
    ensures StageClicksAllowed(m, r, inp, s)
  {
    assert StaleSells(inp.orders, inp.quote.ask, s.cancelThreshold) == [];
    assert r.actions[|m.actions|..] == clicks;
    assert !HasCancel(clicks);
    NoCutLossWithout(clicks);
  }

  /** The later stage of every tick clicks only what it may. */
  lemma ProceedActions(m: Machine, inp: TickInput, s: Settings)
    requires HasPrices(inp.quote) && Positive(m.prices) && WellFormed(inp)
    ensures StageClicksAllowed(m, ProceedSpec(m, inp, s), inp, s)
  {
    var r := ProceedSpec(m, inp, s);
    var q := inp.quote;
    if DidCancel(inp.orders, q, s.cancelThreshold) {
      ProceedCancelActions(m, inp, s);
      CancelClicksAllowed(m, r, inp, s);
    } else {
      ProceedPlaceActions(m, inp, s);
      var d := CheckTradeConditions(q, s, m.trades, m.prices, inp.depth);
      if !inp.rowsPresent && Abs(Gap(q)) < s.gapThreshold && d.canTrade {
        var clicks := if FormUsable(inp.form) then PlacementClicks(d.dynamicSlippage, s, inp.form) else [];
        PlacementClicksAllowed(m, r, inp, s, clicks);
      } else {
        PlacementClicksAllowed(m, r, inp, s, []);
      }
    }
  }

  /**
   * The trace of a tick only grows. Every cancel it issues is of a stale
   * order of the current list (a stale buy bid-side, a stale sell ask-side);
   * it issues the cut-loss exactly once when a sell order is stale and not at
   * all otherwise; and any cancel or cut-loss leaves both fills cleared and
   * the trader cooling down.
   */
  lemma TickCancelsOnlyStaleOrders(m: Machine, inp: TickInput, s: Settings)
    requires Positive(m.prices) && WellFormed(inp)
    ensures var r := TickSpec(m, inp, s);
      var q := inp.quote;
      var t := s.cancelThreshold;
      m.actions <= r.actions &&
      var added := r.actions[|m.actions|..];
      CancelsOnlyStale(added, inp.orders, q, t) &&
      CutLossCount(added) ==
        (if HasPrices(q) && !m.coolingDown && StaleSells(inp.orders, q.ask, t) != [] then 1 else 0) &&
      (HasCancel(added) ==>
        r.lastBuyPrice == None && r.lastSellPrice == None && r.coolingDown && r.status == CoolingDown)
  {
    var r := TickSpec(m, inp, s);
    TickProceeds(m, inp, s);
    if Proceeds(m, inp, s) {
      ProceedActions(Staged(m, inp, s), inp, s);
    } else {
      assert r.actions[|m.actions|..] == [];
      if HasPrices(inp.quote) && !m.coolingDown {
        assert inp.orders == [];
      }
    }
  }

  /**
   * A tick places an order only when nothing is open, the gap is below the
   * threshold and the gate passes, and it is cooling down afterwards.
   */
  lemma TickPlacesOnlyWhenClear(m: Machine, inp: TickInput, s: Settings)
    requires Positive(m.prices) && WellFormed(inp)
    ensures var r := TickSpec(m, inp, s);
      m.actions <= r.actions &&
      (HasPlacement(r.actions[|m.actions|..]) ==>
        HasPrices(inp.quote) && !m.coolingDown && inp.orders == [] && !inp.rowsPresent &&
        Abs(Gap(inp.quote)) < s.gapThreshold &&
        CheckTradeConditions(inp.quote, s, r.trades, m.prices, inp.depth).canTrade &&
        r.coolingDown && r.status == CoolingDown)
  {
    var r := TickSpec(m, inp, s);
    TickProceeds(m, inp, s);
    if Proceeds(m, inp, s) {
      var st := Staged(m, inp, s);
      ProceedActions(st, inp, s);
      ProceedKeeps(st, inp, s);
    } else {
      assert r.actions[|m.actions|..] == [];
    }
  }

  /**
   * With nothing open and the tick past cycle detection: a small gap and a
   * failing gate yield skipping with the gate's reason, a passing gate yields
   * cooling down with the placement invoked, and a wide gap yields ready;
   * skipping and ready click nothing.
   */
  lemma TickEntry(m: Machine, inp: TickInput, s: Settings)
    requires Positive(m.prices) && WellFormed(inp)
    requires Proceeds(m, inp, s) && !inp.rowsPresent
    ensures var r := TickSpec(m, inp, s);
      var d := CheckTradeConditions(inp.quote, s, r.trades, m.prices, inp.depth);
      (Abs(Gap(inp.quote)) < s.gapThreshold && !d.canTrade ==>
        r.status == Skipping && r.skipReason == Some(d.reason) && r.actions == m.actions) &&
      (Abs(Gap(inp.quote)) < s.gapThreshold && d.canTrade ==>
        r.coolingDown && r.status == CoolingDown &&
        r.actions == m.actions + (if FormUsable(inp.form) then PlacementClicks(d.dynamicSlippage, s, inp.form) else [])) &&
      (Abs(Gap(inp.quote)) >= s.gapThreshold ==> r.status == Ready && r.actions == m.actions)
  {
    TickProceeds(m, inp, s);
    var st := Staged(m, inp, s);
    ProceedKeeps(st, inp, s);
    assert inp.orders == [];
    AfterCancelKeeps(st, inp.orders, inp.quote, s.cancelThreshold);
  }

  /**
   * A cancelled cycle is never recorded: after a tick that cancelled or cut
   * losses, once its cooldown has elapsed the next tick records no trade.
   */
  lemma CancelledCycleNotRecorded(m: Machine, inp1: TickInput, inp2: TickInput, s: Settings)
    requires Positive(m.prices) && WellFormed(inp1) && WellFormed(inp2)
    requires var r1 := TickSpec(m, inp1, s);
      m.actions <= r1.actions && HasCancel(r1.actions[|m.actions|..])
    ensures var r1 := TickSpec(m, inp1, s);
      Positive(r1.prices) &&
      TickSpec(CooldownSpec(r1), inp2, s).trades == r1.trades
  {
    var r1 := TickSpec(m, inp1, s);
    TickCancelsOnlyStaleOrders(m, inp1, s);
    TickProceeds(m, inp1, s);
    if Proceeds(m, inp1, s) {
      ProceedKeeps(Staged(m, inp1, s), inp1, s);
    }
    assert r1.prices == m.prices;
    var c := CooldownSpec(r1);
    assert c.lastBuyPrice == None;
    TickRecordsOnlyCompletedCycles(c, inp2, s);
  }

  /** Start clears the count, the fills, the ledger and the price history and is ready. */
  lemma StartResets(m: Machine)
    requires Inv(m) && !m.running
    ensures var r := ToggleSpec(m);
      r.running && r.status == Ready && !r.coolingDown && r.orderCount == 0 && r.trades == [] &&
      TotalProfit(r.trades) == 0.0 && r.prices == [] && !r.hadOpenOrders &&
      r.lastBuyPrice == None && r.lastSellPrice == None && r.actions == m.actions
  {
  }

  /** Stop goes idle and ends any cooldown, but keeps the count and the ledger. */
  lemma StopKeepsCount(m: Machine)
    requires Inv(m) && m.running
    ensures var r := ToggleSpec(m);
      !r.running && r.status == Idle && !r.coolingDown && r.orderCount == m.orderCount &&
      r.trades == m.trades && r.prices == m.prices && r.actions == m.actions
  {
  }
}
