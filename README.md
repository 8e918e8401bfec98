# Auto-trade decision core, modelled in Dafny

This project models the trading decision core of a browser extension that
trades on a web exchange's order form. The core has three parts:

- **Session state and the trade gate** (`utils.ts`):
  - settings loaded from storage and merged with defaults;
  - a rolling 20-price history and the momentum computed from it;
  - an append-only trade ledger, with its total profit and trailing-loss streak;
  - the cooldown multiplier, the dynamic slippage and the order-book ratio rule;
  - the ordered, first-failure-wins gate `checkTradeConditions`.
- **The auto-trader's poll tick** (`auto-trade.tsx`):
  - detect a completed buy/sell cycle and record it;
  - stop on the maximum loss or the order limit;
  - otherwise cancel stale orders (and cut losses), wait, skip, place an order, or go ready;
  - the start/stop toggle and the cooldown timer.
- **The advanced-buy signal classifier** `determineSignal` (`advanced-buy.tsx`): a priority cascade of cut-loss, cancel-buy, buy, none.

Modules, one per concept:

| file | module | what it holds |
|---|---|---|
| `optional.dfy` | `Optional` | `Option` |
| `constants.dfy` | `Constants` | the default settings and the history sizes |
| `settings.dfy` | `SettingsStore` | the stored blob, loading with defaults, saving |
| `market.dfy` | `Market` | quotes, the gap, open orders, the stale-order rules and selections, the order-book ratio |
| `price_history.dfy` | `PriceHistory` | the `History` class (the price buffer, changed in place) and `Momentum` |
| `ledger.dfy` | `Ledger` | trade records, the `TradeLedger` class, total profit, trailing losses and its loop, the cooldown |
| `decision.dfy` | `Decision` | dynamic slippage and the gate |
| `advanced_buy.dfy` | `AdvancedBuy` | `DetermineSignal` and its cascade properties |
| `auto_trade.dfy` | `AutoTrade` | the `AutoTrader` class and its abstract state machine |
| `tick_races.dfy` | `TickRaces` | a Stop during a tick's awaits and the stale order count, as written and as intended |

How the model is built:

- The auto-trader's refs and React state become fields of `AutoTrader`, and it owns a `TradeLedger` and a `History`.
- `State()` folds all of them into one `Machine` value.
- The methods that make a step of the component are specified as `State() == XSpec(old(State()), …)` against a spec function on `Machine`: `Tick` (`TickSpec`), `Proceed` (`ProceedSpec`), `HandleCancelAndCutLoss` (`AfterCancel`), `ExecuteAutoTrade` (`AfterExecute`), `HandleToggle` (`ToggleSpec`), `CooldownElapsed` (`CooldownSpec`). The helpers `CancelEach`, `ClickCancels`, `StartCooldown` and `RecordCompletedCycle`, and the `TradeLedger` and `History` methods, state their new fields or state directly.
- The properties the source promises are proved about those spec functions as lemmas.

Modelling conventions:

- **The page is an input.** Each tick receives a `TickInput`:
  - the quote (bid = best green price, ask = best red price);
  - whether the open-orders table has rows;
  - the rows that parse as orders;
  - the order-book depth;
  - which form elements exist;
  - the random cooldown base in [1000, 3000) ms.
- **Missing data.** A price of 0 stands for a missing reading (JavaScript `!price`). A captured fill price counts only when it is set and non-zero, as JavaScript truthiness does.
- **Clicks.** Clicks on the page are appended to an `actions` trace: cancel an order, cut-loss, fill buy price, fill sell price, fill volume, press buy.
- **Settings.** The settings are read fresh on every tick, so they are a parameter of `Tick`.
- **Cooldown.** By the model's convention, which holds because a tick is atomic, the cooldown flag is true exactly while a cooldown timer is pending. In the source the flag is set before an order is placed and the timer is armed only after placement (`auto-trade.tsx` lines 430 and 442). After a Stop in the middle of a tick, a timer can be pending while the flag is false; see Findings. The timer firing is the explicit event `CooldownElapsed`.
- **Reasons.** The gate's and the classifier's reason strings are datatype tags carrying the numbers they print.

## Model

| member | source | states |
|---|---|---|
| SettingsStore.Defaults | entrypoints/app/utils.ts:95-111 | the default volume and order limit are the constants and the sell price does not follow the buy price |
| SettingsStore.LoadSettings | entrypoints/app/utils.ts:65-112 | each field is the stored value when present and its constant default otherwise; a missing or unparsable blob gives all defaults |
| SettingsStore.Serialize | entrypoints/app/utils.ts:178-182 | what saving writes loads back as exactly the saved settings |
| SettingsStore.SaveSettings | entrypoints/app/utils.ts:178-187 | the result is true exactly when the store accepts the write; then the blob loads back as the settings; on failure the blob is unchanged |
| SettingsStore.EmptyBlobIsDefaults | entrypoints/app/utils.ts:68-111 | a stored object with no fields loads exactly like no blob |
| SettingsStore.StoredVolumeOverrides | entrypoints/app/utils.ts:74 | a stored volume replaces that field and no other |
| Market.Abs | entrypoints/app/components/auto-trade.tsx:332 | the absolute value is non-negative and equals the value or its negation |
| Market.Gap | entrypoints/app/components/auto-trade.tsx:331 | the gap times the bid is 100 times the spread |
| Market.StaleBuys | entrypoints/app/components/auto-trade.tsx:273-276 | the stale-buy filter in table order; StaleBuysSelects, StaleBuysConcat and StaleBuysCounts state what it keeps |
| Market.StaleSells | entrypoints/app/components/auto-trade.tsx:278-281 | the stale-sell filter in table order; StaleSellsSelects, StaleSellsConcat and StaleSellsCounts state what it keeps |
| Market.StaleBuysSelects | entrypoints/app/components/auto-trade.tsx:273-276 | the stale-buy selection holds exactly the buy orders with bid > price·(1 + t/100), and is no longer than the list |
| Market.StaleSellsSelects | entrypoints/app/components/auto-trade.tsx:278-281 | the stale-sell selection holds exactly the sell orders with ask < price·(1 − t/100), and is no longer than the list |
| Market.StaleBuysConcat | entrypoints/app/components/auto-trade.tsx:273-276 | the stale-buy selection of a concatenation is the concatenation of the selections, so it keeps the table's order |
| Market.StaleSellsConcat | entrypoints/app/components/auto-trade.tsx:278-281 | the stale-sell selection of a concatenation is the concatenation of the selections, so it keeps the table's order |
| Market.StaleBuysCounts | entrypoints/app/components/auto-trade.tsx:273-276 | every stale buy order occurs in the selection as often as in the table, and every other order never does |
| Market.StaleSellsCounts | entrypoints/app/components/auto-trade.tsx:278-281 | every stale sell order occurs in the selection as often as in the table, and every other order never does |
| Market.StaleSidesAreDisjoint | entrypoints/app/components/auto-trade.tsx:273-281 | a selected stale buy is a buy order and never among the stale sells |
| Market.Ratio | entrypoints/app/utils.ts:424 | the ratio times the sell volume is the buy volume when sell volume is positive, and 1 otherwise |
| Market.RatioBelowThreshold | entrypoints/app/utils.ts:464-472 | with sell volume shown, the ratio is below the threshold exactly when the buy volume is below threshold times the sell volume |
| PriceHistory.SumPositive | entrypoints/app/utils.ts:344-345 | a non-empty window of positive prices has a positive sum, so the older mean is never 0 |
| PriceHistory.Pushed | entrypoints/app/utils.ts:316-322 | from a history within capacity, a push has length min(old + 1, 20), puts the price last and keeps the newest suffix of old + [price] |
| PriceHistory.PushedBounded | entrypoints/app/utils.ts:316-322 | below capacity a push appends; at capacity it drops exactly the oldest and appends |
| PriceHistory.History.constructor | entrypoints/app/utils.ts:314 | the history starts empty |
| PriceHistory.History.Add | entrypoints/app/utils.ts:316-322 | the buffer becomes Pushed(old buffer, price) and stays within capacity |
| PriceHistory.History.Clear | entrypoints/app/utils.ts:328-330 | the buffer becomes empty |
| PriceHistory.Momentum | entrypoints/app/utils.ts:336-348 | no value iff fewer than 10 prices; otherwise exactly (mean(last 5) − mean(5 before)) / mean(5 before) · 100, negative iff the recent mean is lower, zero iff equal |
| PriceHistory.SignOfChange | entrypoints/app/utils.ts:347 | the percentage change over a positive base is negative iff the new value is lower, zero iff equal |
| PriceHistory.MomentumWindow | entrypoints/app/utils.ts:341-342 | momentum depends only on the last 10 prices |
| Ledger.MakeRecord | entrypoints/app/utils.ts:262-273 | a record keeps the buy price, sell price and volume given |
| Ledger.RecordProfit | entrypoints/app/utils.ts:263-265 | profit · buyPrice = volume · (sellPrice − buyPrice); for positive buy price and volume the profit is negative iff sell < buy, zero iff equal |
| Ledger.TotalProfit | entrypoints/app/utils.ts:284-286 | the sum of the profits folded from 0; TotalProfitConcat and AllLossesTotalNegative state its properties |
| Ledger.TotalProfitConcat | entrypoints/app/utils.ts:284-286 | the total of two ledgers is the sum of their totals |
| Ledger.AllLossesTotalNegative | entrypoints/app/utils.ts:284-286 | a non-empty ledger of losing trades has a negative total |
| Ledger.TrailingLosses | entrypoints/app/utils.ts:300-310 | the length of the run of losses at the end of the ledger; the TrailingLosses lemmas state that it is the unique maximal such run |
| Ledger.TrailingLossesAreLosses | entrypoints/app/utils.ts:300-310 | the trailing-loss count is at most the ledger length and the counted records all lost |
| Ledger.TrailingLossesMaximal | entrypoints/app/utils.ts:300-310 | the record just before the counted run did not lose |
| Ledger.TrailingLossesUnique | entrypoints/app/utils.ts:300-310 | any count with the two properties above equals the trailing-loss count |
| Ledger.TrailingLossesAppend | entrypoints/app/utils.ts:300-310 | a losing trade extends the streak by one and any other trade resets it to 0 |
| Ledger.CooldownMultiplier | entrypoints/app/utils.ts:491-494 | the multiplier is at least 1, and exactly 1 iff there are no trailing losses |
| Ledger.MultiplierStep | entrypoints/app/utils.ts:493 | each further trailing loss adds 0.5 |
| Ledger.MultiplierAfterTrade | entrypoints/app/utils.ts:491-494 | after a losing trade the multiplier grows by 0.5; after any other it returns to 1 |
| Ledger.CooldownMs | entrypoints/app/components/auto-trade.tsx:436-437 | the cooldown is at least the base (so at least 1 s) and below 3 s times the multiplier; CooldownGrowsWithLosses fixes its value |
| Ledger.CooldownGrowsWithLosses | entrypoints/app/components/auto-trade.tsx:392-393 | with no trailing losses the cooldown is the base, and each further trailing loss adds half the base, which fixes it as base · (1 + losses/2) |
| Ledger.TradeLedger.constructor | entrypoints/app/utils.ts:260 | the ledger starts empty |
| Ledger.TradeLedger.Record | entrypoints/app/utils.ts:262-282 | exactly one record is appended with the earlier ones unchanged, and the total grows by its profit |
| Ledger.TradeLedger.Clear | entrypoints/app/utils.ts:296-298 | the ledger is empty and its total is 0 |
| Ledger.TradeLedger.ConsecutiveLosses | entrypoints/app/utils.ts:300-310 | the backward loop returns the maximal trailing run of losing records: at most the length, all counted records lost, the one before did not |
| Decision.DynamicSlippage | entrypoints/app/utils.ts:369-375 | the slippage is max(minSlippage, spread · factor), so never below the floor |
| Decision.MaxLossHit | entrypoints/app/utils.ts:442-450 | the max-loss check fails when the ledger's total is below minus the allowed loss |
| Decision.MomentumFails | entrypoints/app/utils.ts:452-461 | the momentum check fails when it is enabled, a momentum exists and it is below the threshold |
| Decision.BookFails | entrypoints/app/utils.ts:463-472 | the order-book check fails when it is enabled and the ratio is below the threshold |
| Decision.CheckTradeConditions | entrypoints/app/utils.ts:440-486 | canTrade iff no check fails; the reason is max loss iff max loss is hit, momentum iff max loss passes and momentum fails, the book iff both pass and the book fails, each with its numbers; a failure has no slippage; a pass carries exactly DynamicSlippage(quote, factor, floor) when enabled and nothing otherwise |
| Decision.ShortHistoryIgnoresMomentum | entrypoints/app/utils.ts:452-461 | with fewer than 10 prices momentum never blocks |
| AdvancedBuy.NoPriceNoSignal | entrypoints/app/components/advanced-buy.tsx:52-55 | a missing price gives none, waiting for price data |
| AdvancedBuy.DetermineSignal | entrypoints/app/components/advanced-buy.tsx:51-120 | the priority cascade of the classifier; the Iff, Waits and Unreachable lemmas below state which observations give each signal |
| AdvancedBuy.CutLossIff | entrypoints/app/components/advanced-buy.tsx:70-82 | cut-loss iff prices exist, sell orders exist and the proactive check fires or a sell order is stale, whatever else holds |
| AdvancedBuy.CancelBuyIff | entrypoints/app/components/advanced-buy.tsx:84-98 | cancel-buy iff no cut-loss, buy orders exist and the gate fails or a buy is strictly stale; a failing gate's reason is carried |
| AdvancedBuy.BuyOrderWaits | entrypoints/app/components/advanced-buy.tsx:96-97 | a buy order that passes the gate and is not stale gives none, waiting for the buy fill |
| AdvancedBuy.BuyIff | entrypoints/app/components/advanced-buy.tsx:100-106 | buy iff no orders, a small gap and a passing gate |
| AdvancedBuy.WideGapNoSignal | entrypoints/app/components/advanced-buy.tsx:109-111 | no orders and a wide gap give none with the gap, whatever the gate says |
| AdvancedBuy.SellOnlyWaits | entrypoints/app/components/advanced-buy.tsx:114-117 | sell orders only and no cut-loss give none, waiting for the sell fill |
| AdvancedBuy.MonitoringUnreachable | entrypoints/app/components/advanced-buy.tsx:119 | the final fallback is never returned |
| AdvancedBuy.StaleSellAgreesWithSelection | entrypoints/app/components/advanced-buy.tsx:77-81 | the classifier's stale-sell test agrees with the auto-trader's stale-sell selection |
| AdvancedBuy.StaleBuyAgreesWithSelection | entrypoints/app/components/advanced-buy.tsx:84-95 | the classifier's stale-buy test agrees with the auto-trader's stale-buy selection |
| AdvancedBuy.StaleBuyExample | entrypoints/app/components/advanced-buy.tsx:90-95 | a buy at 100 with bid 102 and a 1% threshold gives cancel-buy, too stale |
| AutoTrade.Cancels | entrypoints/app/components/auto-trade.tsx:287-291 | one cancel click per order, in order |
| AutoTrade.CancelsAreOf | entrypoints/app/components/auto-trade.tsx:287-291 | every click is a cancel of an order of the list |
| AutoTrade.CancelClicks | entrypoints/app/components/auto-trade.tsx:283-317 | the cancels of the stale buys, then of the stale sells and one cut-loss; CancelClicksShape states what it holds |
| AutoTrade.CancelClicksShape | entrypoints/app/components/auto-trade.tsx:283-317 | the step cancels only stale orders, clicks only cancels and cut-loss, cuts loss once iff a sell is stale, and clicks nothing iff nothing is stale |
| AutoTrade.AfterCancel | entrypoints/app/components/auto-trade.tsx:265-320 | the cancel/cut-loss step as a state change; HandleCancelAndCutLoss is proved to follow it, and AfterCancelKeeps and CancelClicksShape state what it changes |
| AutoTrade.SlippageFor | entrypoints/app/components/auto-trade.tsx:129-134 | the dynamic slippage when given and enabled, the fixed one otherwise |
| AutoTrade.BuyLimit | entrypoints/app/components/auto-trade.tsx:129-136 | the buy limit: the ask raised by the slippage percentage |
| AutoTrade.SellLimit | entrypoints/app/components/auto-trade.tsx:151-158 | the sell limit: the bid, or the ask when configured, lowered by the slippage percentage |
| AutoTrade.PlacementClicks | entrypoints/app/components/auto-trade.tsx:228-261 | placement clicks only fill and submit, and presses buy iff the buy button exists |
| AutoTrade.AfterExecute | entrypoints/app/components/auto-trade.tsx:228-261 | placement as a state change; ExecuteAutoTrade is proved to follow it, and AfterExecuteKeeps states what it changes |
| AutoTrade.ProceedSpec | entrypoints/app/components/auto-trade.tsx:386-450 | the tick after cycle detection as a state change; Proceed follows it, and the Proceed lemmas state its properties |
| AutoTrade.CycleCompleted | entrypoints/app/components/auto-trade.tsx:346-350 | a cycle completed: orders were open, the table is empty, and both fill prices are truthy |
| AutoTrade.CycleRecord | entrypoints/app/components/auto-trade.tsx:356-357 | the trade recorded from the captured fills and the configured volume |
| AutoTrade.Recorded | entrypoints/app/components/auto-trade.tsx:351-359 | one more order, that trade appended and both fills cleared; TickRecordsOnlyCompletedCycles states when it happens |
| AutoTrade.StopsAfterRecord | entrypoints/app/components/auto-trade.tsx:361-379 | after recording, the total is below minus the maximum loss or a positive order limit is reached |
| AutoTrade.Stopped | entrypoints/app/components/auto-trade.tsx:364-379 | the stop after recording: not running and idle, with the max-loss reason when that caused it; TickStopsAfterRecord states it |
| AutoTrade.Staged | entrypoints/app/components/auto-trade.tsx:338-384 | the state the tick hands on: skip reason cleared, a completed cycle recorded, and the open-orders flag updated |
| AutoTrade.TickSpec | entrypoints/app/components/auto-trade.tsx:324-451 | one tick as a state change; Tick follows it, and the Tick lemmas state its properties |
| AutoTrade.ToggleSpec | entrypoints/app/components/auto-trade.tsx:496-518 | the start/stop button as a state change; StartResets and StopKeepsCount state its two cases |
| AutoTrade.CooldownSpec | entrypoints/app/components/auto-trade.tsx:397-400 | the timer firing as a state change; ToggleAndCooldownPreserveInv states that it keeps the invariant |
| AutoTrade.AutoTrader.constructor | entrypoints/app/components/auto-trade.tsx:55-69 | the trader starts idle with count 0, no fills, an empty ledger, history and trace |
| AutoTrade.AutoTrader.CancelEach | entrypoints/app/components/auto-trade.tsx:287-291 | the loop appends one cancel per order, in order |
| AutoTrade.AutoTrader.ClickCancels | entrypoints/app/components/auto-trade.tsx:283-311 | the trace grows by the stale-buy cancels, then the stale-sell cancels and one cut-loss |
| AutoTrade.AutoTrader.HandleCancelAndCutLoss | entrypoints/app/components/auto-trade.tsx:265-320 | returns true iff the list is non-empty and some order is stale; then the trace grows by the cancel clicks and both fills are cleared; otherwise nothing changes |
| AutoTrade.AutoTrader.ExecuteAutoTrade | entrypoints/app/components/auto-trade.tsx:228-261 | with both prices and the checkbox, fills each input that exists and captures the fill prices entered, then presses buy if present; otherwise nothing |
| AutoTrade.AutoTrader.StartCooldown | entrypoints/app/components/auto-trade.tsx:388-401 | cooling down, with the base scaled by the ledger's trailing losses |
| AutoTrade.AutoTrader.Proceed | entrypoints/app/components/auto-trade.tsx:386-450 | the tick's later stage follows ProceedSpec: cancel then cool down, wait, skip, place then cool down, or ready |
| AutoTrade.AutoTrader.RecordCompletedCycle | entrypoints/app/components/auto-trade.tsx:351-379 | records the captured cycle and stops iff max loss or the order limit is reached |
| AutoTrade.AutoTrader.Tick | entrypoints/app/components/auto-trade.tsx:324-451 | one tick follows TickSpec and keeps the invariant |
| AutoTrade.AutoTrader.HandleToggle | entrypoints/app/components/auto-trade.tsx:496-518 | the toggle follows ToggleSpec and keeps the invariant |
| AutoTrade.AutoTrader.CooldownElapsed | entrypoints/app/components/auto-trade.tsx:397-400 | the timer clears cooling and sets ready, and keeps the invariant |
| AutoTrade.AfterCancelKeeps | entrypoints/app/components/auto-trade.tsx:265-320 | cancelling touches only status, trace and fills, and nothing when nothing is stale |
| AutoTrade.AfterExecuteKeeps | entrypoints/app/components/auto-trade.tsx:228-261 | placement touches only the trace and the fills |
| AutoTrade.TickProceeds | entrypoints/app/components/auto-trade.tsx:338-387 | a tick past cycle detection is its later stage on the staged state, and any other tick clicks nothing |
| AutoTrade.TickPreservesInv | entrypoints/app/components/auto-trade.tsx:324-451 | a tick keeps: history within 20 and positive, count = ledger length, running iff not idle, cooling iff cooling-down |
| AutoTrade.ProceedPreservesInv | entrypoints/app/components/auto-trade.tsx:386-450 | the later stage keeps the invariant |
| AutoTrade.ToggleAndCooldownPreserveInv | entrypoints/app/components/auto-trade.tsx:496-517 | start, stop and the timer keep the invariant |
| AutoTrade.ProceedKeeps | entrypoints/app/components/auto-trade.tsx:386-450 | the later stage never changes the ledger, count, history or running flag |
| AutoTrade.TickRecordsOnlyCompletedCycles | entrypoints/app/components/auto-trade.tsx:346-361 | a tick appends exactly the captured record and counts it iff orders were open, are gone and both fills are set; otherwise ledger and count are unchanged |
| AutoTrade.TickStopsAfterRecord | entrypoints/app/components/auto-trade.tsx:362-379 | after recording, max loss or the order limit stops the run in idle with no click; max loss carries its reason |
| AutoTrade.TickWhileCoolingIsInert | entrypoints/app/components/auto-trade.tsx:338-344 | while cooling a tick only clears the skip reason: count, ledger, trace and fills unchanged |
| AutoTrade.ProceedCancelActions | entrypoints/app/components/auto-trade.tsx:386-402 | a cancelling stage appends the cancel clicks and leaves fills cleared and cooling down |
| AutoTrade.ProceedPlaceActions | entrypoints/app/components/auto-trade.tsx:404-450 | a non-cancelling stage clicks only when nothing is open, the gap is small and the gate passes, and then cools down |
| AutoTrade.CancelClicksAllowed | entrypoints/app/components/auto-trade.tsx:283-317 | appending the cancel clicks satisfies the allowed-clicks property |
| AutoTrade.PlacementClicksAllowed | entrypoints/app/components/auto-trade.tsx:404-433 | appending placement clicks under the entry conditions satisfies the allowed-clicks property |
| AutoTrade.ProceedActions | entrypoints/app/components/auto-trade.tsx:386-450 | the later stage only appends: stale cancels, one cut-loss iff a sell is stale, fills cleared after any cancel, placements only when clear and gated |
| AutoTrade.TickCancelsOnlyStaleOrders | entrypoints/app/components/auto-trade.tsx:265-320 | a tick cancels only stale orders, cuts loss exactly once iff a sell is stale, and any cancel leaves both fills cleared and cooling |
| AutoTrade.TickPlacesOnlyWhenClear | entrypoints/app/components/auto-trade.tsx:404-433 | a tick places only with no open orders, a small gap and a passing gate, and is cooling down afterwards |
| AutoTrade.TickEntry | entrypoints/app/components/auto-trade.tsx:404-450 | with nothing open: a failing gate gives skipping with its reason, a pass gives cooling with placement, a wide gap gives ready |
| AutoTrade.CancelledCycleNotRecorded | entrypoints/app/components/auto-trade.tsx:292-314 | after a tick that cancelled, the next tick once the cooldown ends records no trade |
| AutoTrade.StartResets | entrypoints/app/components/auto-trade.tsx:505-516 | start zeroes the count, fills, ledger and history and goes ready |
| AutoTrade.StopKeepsCount | entrypoints/app/components/auto-trade.tsx:497-503 | stop goes idle and clears cooling, keeping the count and the ledger |
| TickRaces.PlacementBegun | entrypoints/app/components/auto-trade.tsx:429-431 | the placement tick up to its await is cooling down and changes neither running, trace nor ledger |
| TickRaces.ResumeAsWritten | entrypoints/app/components/auto-trade.tsx:433-446 | the continuation as written: fill the form and arm the timer whether or not the trader still runs; StopDuringPlacementAsWritten states the result |
| TickRaces.TimerFiresAsWritten | entrypoints/app/components/auto-trade.tsx:444-447 | the timer callback clears cooling and shows ready whatever the state |
| TickRaces.StopDuringPlacementAsWritten | entrypoints/app/components/auto-trade.tsx:429-447 | with a Stop during the placement await, the order is still filled and submitted after the Stop, and the timer later shows the stopped trader ready, outside the invariant |
| TickRaces.ResumeChecked | entrypoints/app/components/auto-trade.tsx:433-447 | the intended continuation lets the placement in flight finish, but once the trader was stopped arms no timer and leaves it idle |
| TickRaces.StopDuringPlacementChecked | entrypoints/app/components/auto-trade.tsx:429-447 | with the check, a Stop during the placement await leaves the trader idle and within the invariant, with the in-flight placement clicks as the only change to the trace |
| TickRaces.CheckedResumeIsPlacement | entrypoints/app/components/auto-trade.tsx:404-447 | without a Stop the checked continuation is exactly the atomic tick's placement branch |
| TickRaces.StopDuringCancelAsWritten | entrypoints/app/components/auto-trade.tsx:386-399 | a stopped trader reaching the end of the cancel branch is shown cooling down, and the timer later shows it ready, outside the invariant |
| TickRaces.CancelTailAsWritten | entrypoints/app/components/auto-trade.tsx:390-400 | the end of the cancel branch as written: cooling down and a timer armed whether or not the trader still runs; StopDuringCancelAsWritten states the result |
| TickRaces.CancelTailChecked | entrypoints/app/components/auto-trade.tsx:386-399 | the intended end of the cancel branch does nothing once stopped, and otherwise cools down |
| TickRaces.StopDuringCancelChecked | entrypoints/app/components/auto-trade.tsx:386-399 | with the check, a Stop during the cancel branch leaves the trader idle and within the invariant |
| TickRaces.CheckedCancelIsCancelBranch | entrypoints/app/components/auto-trade.tsx:386-401 | without a Stop the checked cancel branch is exactly the atomic tick's cancel branch |
| TickRaces.RecordedAsWritten | entrypoints/app/components/auto-trade.tsx:351-357 | the record counts one more than the callback's captured count and appends one trade |
| TickRaces.LimitReachedAsWritten | entrypoints/app/components/auto-trade.tsx:373-374 | the order-limit test on the count computed from the captured one; StaleCountAsWritten shows it missing a limit the ledger reached |
| TickRaces.StaleCountAsWritten | entrypoints/app/components/auto-trade.tsx:351-379 | with a captured count one behind, the count falls behind the ledger and an order limit the ledger reached does not stop the run |
| TickRaces.RecordedKeepsCount | entrypoints/app/components/auto-trade.tsx:351-379 | counting from the current state keeps the count equal to the ledger length, and the limit test sees that length |

## Left out

- The page itself is not modelled. Reading prices, open orders, table rows and order-book rows from the DOM comes in as inputs. The waits for elements are not modelled either.
- Timers and randomness: `sleep` delays, the random 400–600 ms polling schedule, and the random cooldown base (an input in [1000, 3000)).
- AutoTrade.AutoTrader.Tick: requires the trader to be running, and runs as one atomic step. The polling loop is not modelled. What an atomic tick does not capture:
  - A Stop pressed while a tick awaits its placement or cancel clicks does not stop the remaining clicks. The tick then shows the stopped trader cooling down and arms a timer that later shows it ready. This is modelled in `TickRaces` and listed under Findings.
  - When a recorded cycle re-creates the tick callback, the callback already running schedules itself again from its old copy. Two polling chains then run, and one of them reads a stale order count. `TickRaces` models that count; two concurrent chains are not modelled.
- The React layer is not modelled:
  - display state such as the current gap and status notifications;
  - batching of state updates;
  - the effect that re-subscribes `checkAndTrade` when the order count changes; its stale count is in `TickRaces`.
- The 500 ms display poll that pushes the mid price into the history is not modelled as a step. `PriceHistory.History.Add` models the push itself.
- `PriceHistory.History.Add`, `PriceHistory.Momentum` and `AdvancedBuy.DetermineSignal` require positive prices. The source only pushes mid prices of two non-zero readings and divides by the older mean. Negative quotes are not modelled.
- Side has only Buy and Sell. The source casts the trimmed text of the type cell without checking it (`utils.ts` line 236). A row with other text lies on neither side, so it is neither counted as a buy or sell by the classifier nor selected as stale; the model has no such order.
- Floating point is not modelled: IEEE rounding, NaN and Infinity, `toFixed` formatting.
- `Number()` coercion of settings stored as strings is not modelled.
- The volatility measure and its sample size are not modelled, because no decision in the core uses them.
- The proactive cut-loss check is imported by `advanced-buy.tsx` but not defined in `utils.ts`. It enters as an input, its answer and reason.
- The cut-loss sell is imported by `auto-trade.tsx` from `quick-sell.tsx`, but that file exports only its default component, so the sell it performs is not in the source. It appears only as the `CutLossSell` action.
- Some clicks are not traced:
  - the random order-book click;
  - checking the reverse-order checkbox when it is unchecked;
  - confirming the buy dialog.
  
  The manual-trade panels are not modelled.
- Trade timestamps, the copying getters for trade and price history, and the trade-count getter are not modelled.
- The remaining parts of `advanced-buy.tsx` (its monitoring effect and order actions) are not modelled.
- AutoTrade.AutoTrader.HandleCancelAndCutLoss: sets the final status once. The source shows `cancelling` during the 200 ms awaits and `cut_loss` during the cut-loss await, and each status change is reported to the parent. The intermediate statuses reported during those awaits are not modelled.
- `AutoTrade.AutoTrader.ExecuteAutoTrade`: collects its clicks and fill prices and commits them together. In the source they happen one by one, with delays in between.

## Findings

| source | as written | input that shows it | evidently intended | confidence | as-written member | corrected member |
|---|---|---|---|---|---|---|
| entrypoints/app/components/auto-trade.tsx:429-447 | after awaiting the placement the tick fills, submits and arms the cooldown timer without re-reading whether the trader runs | a running trader with nothing open, a small gap and a passing gate; Stop is pressed during the placement sleeps | the placement in flight finishes, then the stopped trader stays idle and no timer is left armed to show it ready | not executed; high | TickRaces.StopDuringPlacementAsWritten | TickRaces.ResumeChecked |
| entrypoints/app/components/auto-trade.tsx:386-399 | after awaiting the cancels and the cut-loss the tick sets cooling down and arms the timer without re-reading whether the trader runs | a running trader with a stale order; Stop is pressed during one of the 200 ms sleeps | a stopped trader stays idle | not executed; high | TickRaces.StopDuringCancelAsWritten | TickRaces.CancelTailChecked |
| entrypoints/app/components/auto-trade.tsx:351-352 | the new count is the count captured by the tick callback plus one; after a recorded cycle the callback already running keeps scheduling itself from its old copy | the count is 1 after a recorded cycle; the old chain records the next cycle and counts 1 again, with an order limit of 2 | the count follows the ledger (a functional state update or a ref), so the order limit stops at the limit | not executed; medium | TickRaces.StaleCountAsWritten | TickRaces.RecordedKeepsCount |
