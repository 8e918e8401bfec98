/**
 * Two interleavings the atomic tick of AutoTrade does not show. A tick that
 * places an order marks itself as cooling down and then awaits the form
 * filling; the Stop button can be pressed during that await. A tick also
 * reads the order count captured when its callback was created, which can
 * lag behind the count after a completed cycle re-creates the callback.
 * Each is modelled as written and as evidently intended.
 */
module TickRaces {
  import opened Optional
  import opened Market
  import opened PriceHistory
  import opened Ledger
  import opened Decision
  import opened SettingsStore
  import opened AutoTrade

  /** The placement tick up to its await: cooling down is set before the form is filled. */
  function PlacementBegun(m: Machine): (r: Machine)
    ensures r.coolingDown && r.status == CoolingDown
    ensures r.running == m.running && r.actions == m.actions && r.trades == m.trades
  {
    m.(coolingDown := true, status := CoolingDown)
  }

  /**
   * The rest of the placement tick as written: fill the form and arm the
   * cooldown timer, without looking at whether the trader still runs.
   */
  function ResumeAsWritten(m: Machine, d: Option<real>, s: Settings, form: FormEnv, base: real): Machine
    requires 1000.0 <= base < 3000.0
  {
    var m1 := AfterExecute(m, d, s, form);
    m1.(cooldownMs := CooldownMs(base, TrailingLosses(m1.trades)))
  }

  /** The timer callback as written: it clears cooling and shows ready, whatever the state. */
  function TimerFiresAsWritten(m: Machine): (r: Machine)
    ensures !r.coolingDown && r.status == Ready && r.running == m.running && r.actions == m.actions
  {
    m.(coolingDown := false, status := Ready)
  }

  /**
   * Stop pressed during the placement await, as written: the form is still
   * filled and submitted after the Stop, and the timer armed afterwards later
   * shows ready on a stopped trader, so the trader leaves its invariant.
   */
  lemma StopDuringPlacementAsWritten(m: Machine, d: Option<real>, s: Settings, form: FormEnv, base: real)
    requires Inv(m) && m.running && 1000.0 <= base < 3000.0
    requires FormUsable(form) && form.buyButton
    ensures var stopped := ToggleSpec(PlacementBegun(m));
      var r := TimerFiresAsWritten(ResumeAsWritten(stopped, d, s, form, base));
      !stopped.running && stopped.status == Idle &&
      !r.running && r.status == Ready && !Inv(r) &&
      |r.actions| > |stopped.actions| && r.actions[..|stopped.actions|] == stopped.actions &&
      SubmitBuy in r.actions[|stopped.actions|..]
  {
    var stopped := ToggleSpec(PlacementBegun(m));
    var resumed := ResumeAsWritten(stopped, d, s, form, base);
    var clicks := PlacementClicks(d, s, form);
    assert resumed.actions == stopped.actions + clicks;
    assert resumed.actions[|stopped.actions|..] == clicks;
  }

  /**
   * The rest of the placement tick as intended: the placement already in
   * flight finishes, but when the trader was stopped meanwhile no cooldown
   * timer is armed, so the stopped trader stays idle.
   */
  function ResumeChecked(m: Machine, d: Option<real>, s: Settings, form: FormEnv, base: real): (r: Machine)
    requires 1000.0 <= base < 3000.0
    ensures !m.running ==> !r.running && r.status == m.status && r.coolingDown == m.coolingDown
  {
    if !m.running then AfterExecute(m, d, s, form) else ResumeAsWritten(m, d, s, form, base)
  }

  /**
   * Stop pressed during the placement await, as intended: the in-flight
   * placement clicks are the only change to the trace, the trader stays idle
   * and within its invariant, and no timer is left to show it ready.
   */
  lemma StopDuringPlacementChecked(m: Machine, d: Option<real>, s: Settings, form: FormEnv, base: real)
    requires Inv(m) && m.running && 1000.0 <= base < 3000.0
    ensures var stopped := ToggleSpec(PlacementBegun(m));
      var r := CooldownSpec(ResumeChecked(stopped, d, s, form, base));
      Inv(r) && !r.running && r.status == Idle && !r.coolingDown &&
      r.actions == m.actions + (if FormUsable(form) then PlacementClicks(d, s, form) else [])
  {
  }

  /**
   * Without a Stop the checked continuation is exactly the placement branch
   * of the atomic tick, so the rest of the model describes the intended code.
   */
  lemma CheckedResumeIsPlacement(m: Machine, inp: TickInput, s: Settings)
    requires HasPrices(inp.quote) && Positive(m.prices) && 1000.0 <= inp.cooldownBase < 3000.0
    requires m.running && !DidCancel(inp.orders, inp.quote, s.cancelThreshold) && !inp.rowsPresent
    requires Abs(Gap(inp.quote)) < s.gapThreshold
    requires CheckTradeConditions(inp.quote, s, m.trades, m.prices, inp.depth).canTrade
    ensures ProceedSpec(m, inp, s) ==
      ResumeChecked(PlacementBegun(m), CheckTradeConditions(inp.quote, s, m.trades, m.prices, inp.depth).dynamicSlippage,
                    s, inp.form, inp.cooldownBase)
  {
  }

  /**
   * The end of the cancel branch as written: after the awaited cancels and
   * cut-loss the tick marks cooling down and arms the timer, without looking
   * at whether the trader still runs.
   */
  function CancelTailAsWritten(m: Machine, base: real): Machine
    requires 1000.0 <= base < 3000.0
  {
    m.(coolingDown := true, status := CoolingDown, cooldownMs := CooldownMs(base, TrailingLosses(m.trades)))
  }

  /**
   * Stop pressed while the cancel branch awaits, as written: the stopped
   * trader is shown cooling down, and the timer later shows it ready.
   */
  lemma StopDuringCancelAsWritten(m: Machine, base: real)
    requires Inv(m) && !m.running && 1000.0 <= base < 3000.0
    ensures var r := CancelTailAsWritten(m, base);
      !r.running && r.status == CoolingDown && !Inv(r) &&
      TimerFiresAsWritten(r).status == Ready && !Inv(TimerFiresAsWritten(r))
  {
  }

  /** The end of the cancel branch as intended: nothing when the trader was stopped meanwhile. */
  function CancelTailChecked(m: Machine, base: real): (r: Machine)
    requires 1000.0 <= base < 3000.0
    ensures !m.running ==> r == m
    ensures r.running == m.running && r.trades == m.trades && r.actions == m.actions
  {
    if !m.running then m else CancelTailAsWritten(m, base)
  }

  /** With the check a Stop during the cancel branch leaves the trader stopped and within its invariant. */
  lemma StopDuringCancelChecked(m: Machine, base: real)
    requires Inv(m) && 1000.0 <= base < 3000.0
    ensures var r := CooldownSpec(CancelTailChecked(ToggleSpec(m), base));
      m.running ==> Inv(r) && !r.running && r.status == Idle
  {
  }

  /** Without a Stop the checked cancel branch is exactly the cancel branch of the atomic tick. */
  lemma CheckedCancelIsCancelBranch(m: Machine, inp: TickInput, s: Settings)
    requires HasPrices(inp.quote) && Positive(m.prices) && 1000.0 <= inp.cooldownBase < 3000.0
    requires m.running && DidCancel(inp.orders, inp.quote, s.cancelThreshold)
    ensures ProceedSpec(m, inp, s) ==
      CancelTailChecked(AfterCancel(m, inp.orders, inp.quote, s.cancelThreshold), inp.cooldownBase)
  {
    AfterCancelKeeps(m, inp.orders, inp.quote, s.cancelThreshold);
  }

  /**
   * Recording a completed cycle as written: the new count is one more than
   * the count `seen` captured by the callback, not one more than the current
   * count.
   */
  function RecordedAsWritten(m: Machine, s: Settings, seen: nat): (r: Machine)
    requires Captured(m.lastBuyPrice) && m.lastSellPrice.Some?
    ensures r.orderCount == seen + 1 && |r.trades| == |m.trades| + 1
  {
    Recorded(m, s).(orderCount := seen + 1)
  }

  /** The order-limit test as written, on the count computed from the captured one. */
  predicate LimitReachedAsWritten(s: Settings, seen: nat) {
    s.orderLimit > 0.0 && (seen + 1) as real >= s.orderLimit
  }

  /**
   * A callback created before the previous cycle was counted sees a count one
   * behind: it records the trade but counts it as the previous one, so the
   * count falls behind the ledger, and an order limit the ledger has reached
   * does not stop the run.
   */
  lemma StaleCountAsWritten(m: Machine, s: Settings)
    requires Inv(m) && m.orderCount > 0 && Captured(m.lastBuyPrice) && m.lastSellPrice.Some?
    requires s.orderLimit == (m.orderCount + 1) as real
    ensures var r := RecordedAsWritten(m, s, m.orderCount - 1);
      r.orderCount < |r.trades| && !Inv(r) &&
      !LimitReachedAsWritten(s, m.orderCount - 1) && |r.trades| as real >= s.orderLimit
  {
  }

  /**
   * As intended the count is taken from the current state (a functional state
   * update or a ref): the record then keeps the count equal to the ledger
   * length, and the limit test sees the ledger's length.
   */
  lemma RecordedKeepsCount(m: Machine, s: Settings)
    requires Inv(m) && Captured(m.lastBuyPrice) && m.lastSellPrice.Some?
    ensures RecordedAsWritten(m, s, m.orderCount) == Recorded(m, s)
    ensures Recorded(m, s).orderCount == |Recorded(m, s).trades|
    ensures LimitReachedAsWritten(s, m.orderCount) <==>
      s.orderLimit > 0.0 && |Recorded(m, s).trades| as real >= s.orderLimit
  {
  }
}
