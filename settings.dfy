/**
 * The settings store: a flat record persisted as one JSON blob under a fixed
 * key, merged field by field with the defaults when it is loaded.
 */
module SettingsStore {
  import opened Optional
  import opened Constants

  /** The typed settings every other component reads. */
  datatype Settings = Settings(
    buySlippage: real,
    sellSlippage: real,
    volume: real,
    useBuyPriceAsSellPrice: bool,
    gapThreshold: real,
    cancelThreshold: real,
    orderLimit: real,
    maxLoss: real,
    enableMomentumCheck: bool,
    momentumThreshold: real,
    enableDynamicSlippage: bool,
    dynamicSlippageFactor: real,
    minSlippage: real,
    enableOrderBookCheck: bool,
    orderBookRatioThreshold: real)

  /** The fields of a parsed blob; `None` is a field that is absent or `null`. */
  datatype StoredFields = StoredFields(
    buySlippage: Option<real>,
    sellSlippage: Option<real>,
    volume: Option<real>,
    useBuyPriceAsSellPrice: Option<bool>,
    gapThreshold: Option<real>,
    cancelThreshold: Option<real>,
    orderLimit: Option<real>,
    maxLoss: Option<real>,
    enableMomentumCheck: Option<bool>,
    momentumThreshold: Option<real>,
    enableDynamicSlippage: Option<bool>,
    dynamicSlippageFactor: Option<real>,
    minSlippage: Option<real>,
    enableOrderBookCheck: Option<bool>,
    orderBookRatioThreshold: Option<real>)

  /**
   * What the key-value store holds under the settings key: nothing, a value
   * that does not yield an object (an empty string, text that is not JSON,
   * or JSON whose field access throws), or a parsed object.
   */
  datatype StoredBlob = Absent | Malformed | Parsed(fields: StoredFields)

  /** The settings used when nothing usable is stored. */
  function Defaults(): (d: Settings)
    ensures d.volume == DefaultVolume && d.orderLimit == DefaultOrderLimit
    ensures !d.useBuyPriceAsSellPrice
  {
    Settings(
      DefaultBuySlippage, DefaultSellSlippage, DefaultVolume, false,
      DefaultGapThreshold, DefaultCancelThreshold, DefaultOrderLimit,
      DefaultMaxLoss, DefaultEnableMomentumCheck, DefaultMomentumThreshold,
      DefaultEnableDynamicSlippage, DefaultDynamicSlippageFactor, DefaultMinSlippage,
      DefaultEnableOrderBookCheck, DefaultOrderBookRatioThreshold)
  }

  /** A blob holding no field at all. */
  function EmptyFields(): StoredFields {
    StoredFields(None, None, None, None, None, None, None, None,
                 None, None, None, None, None, None, None)
  }

  /**
   * Loading: each field is the stored value when the blob has one, and the
   * default otherwise; a missing or unusable blob yields all defaults.
   */
  function LoadSettings(blob: StoredBlob): (s: Settings)
    ensures !blob.Parsed? ==> s == Defaults()
    ensures blob.Parsed? ==>
      var f := blob.fields;
      var d := Defaults();
      (f.buySlippage.Some? ==> s.buySlippage == f.buySlippage.value) &&
      (f.buySlippage.None? ==> s.buySlippage == d.buySlippage) &&
      (f.sellSlippage.Some? ==> s.sellSlippage == f.sellSlippage.value) &&
      (f.sellSlippage.None? ==> s.sellSlippage == d.sellSlippage) &&
      (f.volume.Some? ==> s.volume == f.volume.value) &&
      (f.volume.None? ==> s.volume == d.volume) &&
      (f.useBuyPriceAsSellPrice.Some? ==> s.useBuyPriceAsSellPrice == f.useBuyPriceAsSellPrice.value) &&
      (f.useBuyPriceAsSellPrice.None? ==> s.useBuyPriceAsSellPrice == d.useBuyPriceAsSellPrice) &&
      (f.gapThreshold.Some? ==> s.gapThreshold == f.gapThreshold.value) &&
      (f.gapThreshold.None? ==> s.gapThreshold == d.gapThreshold) &&
      (f.cancelThreshold.Some? ==> s.cancelThreshold == f.cancelThreshold.value) &&
      (f.cancelThreshold.None? ==> s.cancelThreshold == d.cancelThreshold) &&
      (f.orderLimit.Some? ==> s.orderLimit == f.orderLimit.value) &&
      (f.orderLimit.None? ==> s.orderLimit == d.orderLimit) &&
      (f.maxLoss.Some? ==> s.maxLoss == f.maxLoss.value) &&
      (f.maxLoss.None? ==> s.maxLoss == d.maxLoss) &&
      (f.enableMomentumCheck.Some? ==> s.enableMomentumCheck == f.enableMomentumCheck.value) &&
      (f.enableMomentumCheck.None? ==> s.enableMomentumCheck == d.enableMomentumCheck) &&
      (f.momentumThreshold.Some? ==> s.momentumThreshold == f.momentumThreshold.value) &&
      (f.momentumThreshold.None? ==> s.momentumThreshold == d.momentumThreshold) &&
      (f.enableDynamicSlippage.Some? ==> s.enableDynamicSlippage == f.enableDynamicSlippage.value) &&
      (f.enableDynamicSlippage.None? ==> s.enableDynamicSlippage == d.enableDynamicSlippage) &&
      (f.dynamicSlippageFactor.Some? ==> s.dynamicSlippageFactor == f.dynamicSlippageFactor.value) &&
      (f.dynamicSlippageFactor.None? ==> s.dynamicSlippageFactor == d.dynamicSlippageFactor) &&
      (f.minSlippage.Some? ==> s.minSlippage == f.minSlippage.value) &&
      (f.minSlippage.None? ==> s.minSlippage == d.minSlippage) &&
      (f.enableOrderBookCheck.Some? ==> s.enableOrderBookCheck == f.enableOrderBookCheck.value) &&
      (f.enableOrderBookCheck.None? ==> s.enableOrderBookCheck == d.enableOrderBookCheck) &&
      (f.orderBookRatioThreshold.Some? ==> s.orderBookRatioThreshold == f.orderBookRatioThreshold.value) &&
      (f.orderBookRatioThreshold.None? ==> s.orderBookRatioThreshold == d.orderBookRatioThreshold)
  {
    match blob
    case Parsed(f) =>
      var d := Defaults();
      Settings(
        f.buySlippage.GetOr(d.buySlippage),
        f.sellSlippage.GetOr(d.sellSlippage),
        f.volume.GetOr(d.volume),
        f.useBuyPriceAsSellPrice.GetOr(d.useBuyPriceAsSellPrice),
        f.gapThreshold.GetOr(d.gapThreshold),
        f.cancelThreshold.GetOr(d.cancelThreshold),
        f.orderLimit.GetOr(d.orderLimit),
        f.maxLoss.GetOr(d.maxLoss),
        f.enableMomentumCheck.GetOr(d.enableMomentumCheck),
        f.momentumThreshold.GetOr(d.momentumThreshold),
        f.enableDynamicSlippage.GetOr(d.enableDynamicSlippage),
        f.dynamicSlippageFactor.GetOr(d.dynamicSlippageFactor),
        f.minSlippage.GetOr(d.minSlippage),
        f.enableOrderBookCheck.GetOr(d.enableOrderBookCheck),
        f.orderBookRatioThreshold.GetOr(d.orderBookRatioThreshold))
    case _ => Defaults()
  }

  /** The object written by saving: every field is present. */
  function Serialize(s: Settings): (f: StoredFields)
    ensures LoadSettings(Parsed(f)) == s
  {
    StoredFields(
      Some(s.buySlippage), Some(s.sellSlippage), Some(s.volume), Some(s.useBuyPriceAsSellPrice),
      Some(s.gapThreshold), Some(s.cancelThreshold), Some(s.orderLimit), Some(s.maxLoss),
      Some(s.enableMomentumCheck), Some(s.momentumThreshold), Some(s.enableDynamicSlippage),
      Some(s.dynamicSlippageFactor), Some(s.minSlippage), Some(s.enableOrderBookCheck),
      Some(s.orderBookRatioThreshold))
  }

  /**
   * Saving: when the store accepts the write the blob becomes the serialized
   * settings and the result is true; when the write throws, the result is
   * false and the stored blob is left as it was.
   */
  function SaveSettings(s: Settings, stored: StoredBlob, writable: bool): (r: (bool, StoredBlob))
    ensures r.0 == writable
    ensures r.0 ==> LoadSettings(r.1) == s
    ensures !r.0 ==> r.1 == stored
  {
    if writable then (true, Parsed(Serialize(s))) else (false, stored)
  }

  /** A blob whose object holds no field loads exactly like no blob at all. */
  lemma EmptyBlobIsDefaults()
    ensures LoadSettings(Parsed(EmptyFields())) == LoadSettings(Absent)
  {
  }

  /** Overriding one stored field changes that loaded field and no other. */
  lemma StoredVolumeOverrides(f: StoredFields, v: real)
    ensures LoadSettings(Parsed(f.(volume := Some(v)))) == LoadSettings(Parsed(f)).(volume := v)
  {
  }
}
