/**
 * The asset detail view-model (src/pages/market/AssetDetailPage.tsx): every
 * tick moves the asset's price, slides a fixed-length price-history window and
 * sets an up/down indicator; the chart's x-axis labels depend on the timeframe.
 */
module AssetDetail {
  import opened Common
  import opened Text
  import opened Prices

  /** `FakeAssetInfo` */
  datatype AssetInfo = AssetInfo(
    name: string,
    symbol: string,
    identity: string,
    currentPriceUsd: real,
    marketCap: real,
    volume24h: real,
    circulatingSupply: real,
    priceChange24hPercent: real)

  /** The timeframe buttons "1h", "24h", "7d", "30d"; `Unlisted` is the `default:` branch. */
  datatype Timeframe = OneHour | OneDay | OneWeek | OneMonth | Unlisted

  /** The number of prices the page loads into its history window. */
  const HistoryLength: nat := 20

  /** The asset the page shows once its loading delay is over. */
  const FakeAsset: AssetInfo := AssetInfo("Bitcoin", "BTC", "bitcoin", 45000.0, 850000000000.0,
                                          25000000000.0, 19000000.0, 2.34)

  /** `newPrice > prev.current_price_usd ? "up" : "down"`: a tick never leaves the indicator null. */
  function TickDirection(currentPrice: real, newPrice: real): (c: PriceChange)
    ensures c == Up <==> newPrice > currentPrice
    ensures c == Down <==> newPrice <= currentPrice
  {
    if newPrice > currentPrice then Up else Down
  }

  /** `[...prevHistory.slice(1), newPrice]` */
  function Slide(history: seq<real>, newPrice: real): (r: seq<real>)
    ensures |r| == if history == [] then 1 else |history|
    ensures r[|r| - 1] == newPrice
    ensures r[..|r| - 1] == if history == [] then [] else history[1..]
  {
    (if history == [] then [] else history[1..]) + [newPrice]
  }

  /** The window after one tick per price of `newPrices`, in order. */
  function SlideAll(history: seq<real>, newPrices: seq<real>): seq<real>
    decreases |newPrices|
  {
    if newPrices == [] then history else SlideAll(Slide(history, newPrices[0]), newPrices[1..])
  }

  /**
   * A non-empty window keeps its length and always holds the latest prices:
   * after any number of ticks it is the last |history| prices ever seen.
   */
  lemma {:induction false} SlideAllWindow(history: seq<real>, newPrices: seq<real>)
    requires history != []
    ensures |SlideAll(history, newPrices)| == |history|
    ensures SlideAll(history, newPrices) == (history + newPrices)[|newPrices|..]
    decreases |newPrices|
  {
    if newPrices != [] {
      var next := Slide(history, newPrices[0]);
      SlideAllWindow(next, newPrices[1..]);
      assert next + newPrices[1..] == (history + newPrices)[1..];
    }
  }

  /** The label of the i-th point of the chart. */
  function Label(timeframe: Timeframe, i: nat): string
  {
    match timeframe
    case OneHour => NatToString(i * 3) + "m"
    case OneDay => NatToString(i + 5) + ":00"
    case OneWeek => "Day " + NatToString(i / 3 + 1)
    case OneMonth => "Week " + NatToString(i / 5 + 1)
    case Unlisted => NatToString(i + 1)
  }

  /** `getTimeLabels()`: one label per entry of the price history, in order. */
  function TimeLabels(timeframe: Timeframe, history: seq<real>): (labels: seq<string>)
    ensures |labels| == |history|
    ensures forall i :: 0 <= i < |labels| ==> labels[i] == Label(timeframe, i)
  {
    seq(|history|, i requires 0 <= i < |history| => Label(timeframe, i))
  }

  /** Dropping a fixed suffix from two equal strings leaves equal strings. */
  lemma SameWithoutSuffix(a: string, b: string, suffix: string)
    requires a + suffix == b + suffix
    ensures a == b
  {
    assert a == (a + suffix)[..|a|];
    assert |a| == |b|;
    assert b == (b + suffix)[..|b|];
  }

  /** Dropping a fixed prefix from two equal strings leaves equal strings. */
  lemma SameWithoutPrefix(prefix: string, a: string, b: string)
    requires prefix + a == prefix + b
    ensures a == b
  {
    assert a == (prefix + a)[|prefix|..];
    assert b == (prefix + b)[|prefix|..];
  }

  /** Under "1h", "24h" and the default, every point gets its own label. */
  lemma LabelsDistinct(timeframe: Timeframe, i: nat, j: nat)
    requires timeframe == OneHour || timeframe == OneDay || timeframe == Unlisted
    ensures Label(timeframe, i) == Label(timeframe, j) <==> i == j
  {
    if Label(timeframe, i) == Label(timeframe, j) {
      match timeframe {
        case OneHour =>
          SameWithoutSuffix(NatToString(i * 3), NatToString(j * 3), "m");
          NatToStringInjective(i * 3, j * 3);
        case OneDay =>
          SameWithoutSuffix(NatToString(i + 5), NatToString(j + 5), ":00");
          NatToStringInjective(i + 5, j + 5);
        case Unlisted =>
          NatToStringInjective(i + 1, j + 1);
      }
    }
  }

  /** Under "7d" three consecutive points share a day label; under "30d" five share a week label. */
  lemma LabelsGrouped(i: nat, j: nat)
    ensures Label(OneWeek, i) == Label(OneWeek, j) <==> i / 3 == j / 3
    ensures Label(OneMonth, i) == Label(OneMonth, j) <==> i / 5 == j / 5
  {
    if Label(OneWeek, i) == Label(OneWeek, j) {
      SameWithoutPrefix("Day ", NatToString(i / 3 + 1), NatToString(j / 3 + 1));
      NatToStringInjective(i / 3 + 1, j / 3 + 1);
    }
    if Label(OneMonth, i) == Label(OneMonth, j) {
      SameWithoutPrefix("Week ", NatToString(i / 5 + 1), NatToString(j / 5 + 1));
      NatToStringInjective(i / 5 + 1, j / 5 + 1);
    }
  }

  /** The "1h" label reads back as the minute count 3*i; the "24h" label as the hour i+5. */
  lemma LabelsReadBack(i: nat)
    ensures var l := Label(OneHour, i);
      l[|l| - 1] == 'm' && ParseNat(l[..|l| - 1]) == 3 * i
    ensures var l := Label(OneDay, i);
      l[|l| - 3..] == ":00" && ParseNat(l[..|l| - 3]) == i + 5
  {
    var h := Label(OneHour, i);
    assert h[..|h| - 1] == NatToString(i * 3);
    ParseNatToString(i * 3);
    var d := Label(OneDay, i);
    assert d[..|d| - 3] == NatToString(i + 5);
    ParseNatToString(i + 5);
  }

  /** The page's state: the asset, its price history, the indicator and the timeframe. */
  class AssetDetailPage {
    var asset: Option<AssetInfo>
    var priceHistory: seq<real>
    var priceChange: PriceChange
    var timeframe: Timeframe

    /** Once the asset is shown, the history window holds exactly `HistoryLength` prices. */
    predicate Valid()
      reads this
    {
      asset.Some? ==> |priceHistory| == HistoryLength
    }

    constructor ()
      ensures asset == None && priceHistory == [] && priceChange == Neutral && timeframe == OneDay
      ensures Valid()
    {
      asset := None;
      priceHistory := [];
      priceChange := Neutral;
      timeframe := OneDay;
    }

    /** The loading timeout: shows the asset with its initial (random) price history. */
    method Load(initialHistory: seq<real>)
      requires |initialHistory| == HistoryLength
      modifies this
      ensures asset == Some(FakeAsset) && priceHistory == initialHistory
      ensures Valid() && |priceHistory| == HistoryLength
      ensures priceChange == old(priceChange) && timeframe == old(timeframe)
    {
      asset := Some(FakeAsset);
      priceHistory := initialHistory;
    }

    /**
     * The 3-second interval: `newPrice` is the drawn price, and `shownPrice`
     * the same price after `parseFloat(newPrice.toFixed(2))`. Nothing happens
     * before the asset is loaded.
     */
    method Tick(newPrice: real, shownPrice: real)
      requires Valid()
      modifies this
      ensures old(asset).None? ==>
        asset == None && priceHistory == old(priceHistory) && priceChange == old(priceChange)
      ensures old(asset).Some? ==>
        && asset == Some(old(asset).value.(currentPriceUsd := shownPrice))
        && priceChange == TickDirection(old(asset).value.currentPriceUsd, newPrice)
        && priceHistory == Slide(old(priceHistory), newPrice)
        && |priceHistory| == HistoryLength
      ensures timeframe == old(timeframe)
      ensures Valid()
    {
      if asset.None? {
        return;
      }
      var prev := asset.value;
      priceChange := if newPrice > prev.currentPriceUsd then Up else Down;
      var rest := if priceHistory == [] then [] else priceHistory[1..];
      priceHistory := rest + [newPrice];
      asset := Some(prev.(currentPriceUsd := shownPrice));
    }

    /** The one-second timer after a tick: the indicator goes back to null. */
    method ClearChange()
      modifies this
      ensures priceChange == Neutral
      ensures asset == old(asset) && priceHistory == old(priceHistory) && timeframe == old(timeframe)
    {
      priceChange := Neutral;
    }

    /** A timeframe button. */
    method SelectTimeframe(tf: Timeframe)
      modifies this
      ensures timeframe == tf
      ensures asset == old(asset) && priceHistory == old(priceHistory) && priceChange == old(priceChange)
    {
      timeframe := tf;
    }
  }
}
