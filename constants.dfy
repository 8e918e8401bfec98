/** Default settings and buffer sizes of the extension (entrypoints/app/constants.ts). */
module Constants {
  // Basic trading settings
  const DefaultBuySlippage: real := 0.01
  const DefaultSellSlippage: real := 0.01
  const DefaultVolume: real := 550.0
  const DefaultGapThreshold: real := 0.1
  const DefaultCancelThreshold: real := 0.5
  /** 0 means "no limit on completed trades". */
  const DefaultOrderLimit: real := 0.0

  // Algorithm settings
  const DefaultMaxLoss: real := 10.0
  const DefaultEnableMomentumCheck: bool := true
  const DefaultMomentumThreshold: real := -0.1
  const DefaultEnableDynamicSlippage: bool := true
  const DefaultDynamicSlippageFactor: real := 0.4
  const DefaultMinSlippage: real := 0.03
  const DefaultEnableOrderBookCheck: bool := true
  const DefaultOrderBookRatioThreshold: real := 0.8

  // Price history
  const PriceHistorySize: nat := 20
  const MomentumSampleSize: nat := 5
}
