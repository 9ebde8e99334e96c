# market-sentry-client: live prices, price history and list views

This project models the state logic of the market-sentry web client's pages in Dafny:

- the market table, which merges every WebSocket price message into the rows of assets and flashes an up/down colour per row;
- the `useAssetPrice` hook, which keeps a symbol-to-price table and a per-symbol up/down mark;
- the asset detail page, which ticks a simulated price, slides a fixed-length price-history window and labels the chart's x-axis by timeframe;
- the watchlist's case-insensitive search;
- the grouping of notifications by calendar date;
- the CoinCap icon URL builder.

Modules, one per file:

- `Common`: `Option`, and the subsequence relation with its lemmas.
- `Text`: ASCII `toLowerCase`, `String.prototype.includes`, and decimal rendering of naturals with its inverse.
- `Constants`: `getCryptoIcon`.
- `Prices`: a parsed WebSocket message, price lookup and JavaScript truthiness of a price. Both handlers return early on a message that is not a non-null object, as their own contracts state.
- `MarketPage`: the market table. It has specification functions over the rows and the class `MarketPage` with the page's `vaults` and `priceChanges` state.
- `AssetPrice`: the hook. It has specification functions and the class `AssetPriceFeed`.
- `AssetDetail`: the label and window functions and the class `AssetDetailPage`.
- `Watchlist`: the search filter.
- `Notifications`: the grouping. It has reference definitions and the method `GroupNotificationsByDate`.

The model makes these choices:

- Prices are `real`.
- A message is the outcome of `JSON.parse`: unparsable, a non-object, `null`, or an object mapping keys to prices.
- "Falsy" prices are `undefined` and `0`.
- Each `setTimeout` that resets a mark is a separate operation: `ClearMark` or `ClearChange`. The message handlers return the keys whose timer they schedule.

`src/pages/market/MarketPage.tsx:13-14` holds a local copy of `getCryptoIcon`. It is identical to `src/constants/index.ts:3-4`, so `Constants.CryptoIcon` models both.

A second move of the same identity within 500 ms does not restart the flash window. Each move schedules its own timer, and the first timer to fire resets the mark, even when a newer move set that mark. `MarketPage.MarksRevert` and `MarketPage.ClearAllResets` state the resulting behaviour: once a message's timers have fired, every identity it marked is null again, whatever happened in between.

A price of exactly `0` in a message is dropped by the market table: `!newPrice` treats `0` as missing.

## Model

| member | source | states |
|---|---|---|
| Constants.CryptoIcon | src/constants/index.ts:3-4 | the URL is the CoinCap icon prefix, then the lower-cased symbol, then `@2x.png`, with exact lengths and positions |
| Constants.CryptoIconSameIffSameLower | src/constants/index.ts:3-4 | two symbols give the same icon URL if and only if they are equal up to letter case |
| Constants.CryptoIconOfLowered | src/pages/market/MarketPage.tsx:13-14 | lower-casing a symbol before building its icon URL changes nothing |
| Text.ContainsIffOccurs | src/pages/watchlist/WatchlistPage.tsx:35-36 | the recursive `includes` holds if and only if the query occurs at some position of the string |
| Text.ParseNatToString | src/pages/market/AssetDetailPage.tsx:79-87 | the decimal rendering a label template uses reads back as the same number |
| Text.NatToStringInjective | src/pages/market/AssetDetailPage.tsx:79-87 | two numbers render to the same decimal text if and only if they are equal |
| MarketPage.Classify | src/pages/market/MarketPage.tsx:69-71 | "up" if and only if the new price is higher, "down" if and only if it is lower, null if and only if they are equal |
| MarketPage.MergeRow | src/pages/market/MarketPage.tsx:65-91 | a row whose lower-cased identity has no truthy price in the message is returned unchanged; otherwise its price becomes the message's price and every other field is kept |
| MarketPage.RowMark | src/pages/market/MarketPage.tsx:66-73 | a row records a mark if and only if its live price is truthy and differs from its current price |
| MarketPage.MergeRowsShape | src/pages/market/MarketPage.tsx:64-92 | the merge keeps the number and the order of the rows and changes each row only as `MergeRow` says |
| MarketPage.MarkRowsUntouched | src/pages/market/MarketPage.tsx:73-77 | an identity that no moved row carries keeps its earlier mark, or stays absent |
| MarketPage.MarkRowsLastWins | src/pages/market/MarketPage.tsx:64-77 | when several moved rows share an identity, the last of them in table order decides that identity's mark |
| MarketPage.MarkRowsDistinct | src/pages/market/MarketPage.tsx:64-77 | with distinct identities, each moved row's mark is its own up/down under its identity as written |
| MarketPage.MarkRowsKeys | src/pages/market/MarketPage.tsx:73-77 | after a message, an identity holds a mark if and only if it held one before or a timer was scheduled for it |
| MarketPage.ScheduledIffMarked | src/pages/market/MarketPage.tsx:73-86 | a reset timer is scheduled for an identity if and only if some row with that identity moved |
| MarketPage.Cleared | src/pages/market/MarketPage.tsx:80-84 | the timer sets that identity's mark to null and leaves every other mark as it was |
| MarketPage.ClearAllResets | src/pages/market/MarketPage.tsx:80-85 | firing a list of timers nulls exactly the identities in the list and keeps every other mark |
| MarketPage.MarksRevert | src/pages/market/MarketPage.tsx:73-86 | once a message's timers have fired, every identity it marked is null and every other identity has its mark from before the message |
| MarketPage.BtcExample | src/pages/market/MarketPage.tsx:64-91 | `{"btc": 50000}` moves a `btc` row at 49000 to 50000 and marks it up; a message without that key changes nothing |
| MarketPage.MarkKeyNotLowered | src/pages/market/MarketPage.tsx:66-77 | the price is looked up under the lower-cased identity but the mark is stored under the identity as written |
| MarketPage.MarketPage.constructor | src/pages/market/MarketPage.tsx:17-20 | the page starts with no rows and no marks |
| MarketPage.MarketPage.ReceiveAssets | src/pages/market/MarketPage.tsx:35-37 | a loaded asset list replaces the rows and leaves the marks alone |
| MarketPage.MarketPage.OnMessage | src/pages/market/MarketPage.tsx:53-97 | a non-object message changes nothing; an object message makes the rows `MergeRows` of the old rows and the marks `MarkRows` of the old marks, and the timers scheduled are `Scheduled` of the old rows |
| MarketPage.MarketPage.ClearMark | src/pages/market/MarketPage.tsx:80-85 | a timer firing nulls one identity's mark and leaves the rows alone |
| AssetPrice.SymbolChange | src/pages/market/hooks/use-asset-price.ts:28-32 | "up" if and only if the symbol had a nonzero price and the new one is higher; "down" if and only if it had a nonzero price and the new one is lower |
| AssetPrice.MergePricesSpec | src/pages/market/hooks/use-asset-price.ts:25-34 | every key of the message takes its new price, zero included; every other key keeps its price |
| AssetPrice.NewMarksSpec | src/pages/market/hooks/use-asset-price.ts:27-37 | a symbol is marked if and only if the message carries it, it had a nonzero price and the price moved; the mark is "up" if and only if the price rose |
| AssetPrice.RepeatMessageNoMarks | src/pages/market/hooks/use-asset-price.ts:25-37 | sending the same message twice marks nothing the second time |
| AssetPrice.AssetPriceFeed.constructor | src/pages/market/hooks/use-asset-price.ts:4-5 | the hook starts with empty tables |
| AssetPrice.AssetPriceFeed.OnMessage | src/pages/market/hooks/use-asset-price.ts:14-49 | a non-object message changes nothing; an object message makes the price table `MergePrices` of the old table, adds `NewMarks` to the marks, and schedules a timer for exactly the marked symbols, whatever order the keys are visited in |
| AssetPrice.AssetPriceFeed.ClearMark | src/pages/market/hooks/use-asset-price.ts:38-40 | a timer firing nulls one symbol's mark and leaves the prices alone |
| AssetDetail.TickDirection | src/pages/market/AssetDetailPage.tsx:58 | "up" if and only if the new price is higher; "down" otherwise, including an unchanged price |
| AssetDetail.Slide | src/pages/market/AssetDetailPage.tsx:63 | the window drops its oldest price and ends with the new one; a non-empty window keeps its length, and an empty one becomes a single price |
| AssetDetail.SlideAllWindow | src/pages/market/AssetDetailPage.tsx:53-67 | after any number of ticks a non-empty window keeps its length and holds exactly the latest prices ever seen |
| AssetDetail.TimeLabels | src/pages/market/AssetDetailPage.tsx:76-89 | there is one label per price in the history, and label i is the timeframe's label of i |
| AssetDetail.LabelsDistinct | src/pages/market/AssetDetailPage.tsx:78-87 | under "1h", "24h" and the default branch, two points have the same label if and only if they are the same point |
| AssetDetail.LabelsGrouped | src/pages/market/AssetDetailPage.tsx:82-85 | under "7d" points share a label if and only if they are in the same group of three; under "30d", the same group of five |
| AssetDetail.LabelsReadBack | src/pages/market/AssetDetailPage.tsx:78-81 | the "1h" label reads back as 3*i minutes, and the "24h" label as the hour i+5 |
| AssetDetail.AssetDetailPage.constructor | src/pages/market/AssetDetailPage.tsx:29-32 | no asset, an empty history, no indicator and the "24h" timeframe; the window invariant `Valid` holds |
| AssetDetail.AssetDetailPage.Load | src/pages/market/AssetDetailPage.tsx:36-51 | the loading timeout shows the Bitcoin asset with an initial history of exactly 20 prices (only their values are random), which establishes the window invariant `Valid` |
| AssetDetail.AssetDetailPage.Tick | src/pages/market/AssetDetailPage.tsx:53-67 | before loading a tick changes nothing; afterwards it sets the indicator by `TickDirection`, slides the history by the unrounded price and stores the rounded price in the asset; a loaded page's window keeps exactly 20 prices, so `Valid` is preserved |
| AssetDetail.AssetDetailPage.ClearChange | src/pages/market/AssetDetailPage.tsx:61 | the one-second timer nulls the indicator and changes nothing else |
| AssetDetail.AssetDetailPage.SelectTimeframe | src/pages/market/AssetDetailPage.tsx:234 | a timeframe button sets the timeframe and changes nothing else |
| Watchlist.Filter | src/pages/watchlist/WatchlistPage.tsx:33-37 | the result is no longer than the list, and everything in it is in the list and matches |
| Watchlist.FilteredData | src/pages/watchlist/WatchlistPage.tsx:20-37 | every row shown comes from the fixed watchlist and matches the query; the empty query shows the whole list |
| Watchlist.FilterKeepsMatches | src/pages/watchlist/WatchlistPage.tsx:33-37 | an item is shown if and only if it is in the list and its lower-cased symbol or name contains the lower-cased query |
| Watchlist.FilterIsSubsequence | src/pages/watchlist/WatchlistPage.tsx:33 | the result keeps the list's order |
| Watchlist.FilterEmptyQuery | src/pages/watchlist/WatchlistPage.tsx:33-37 | the empty query shows every item |
| Watchlist.FilterCaseInsensitive | src/pages/watchlist/WatchlistPage.tsx:35-36 | queries that are equal up to letter case show the same items |
| Watchlist.FilterIdempotent | src/pages/watchlist/WatchlistPage.tsx:33-37 | filtering the shown items again with the same query changes nothing |
| Notifications.GroupNotificationsByDate | src/pages/notification/NotificationPage.tsx:14-24 | the loop's buckets are the reference grouping `Grouped`, and its dates are the first-occurrence order `DateOrder` |
| Notifications.GroupedSpec | src/pages/notification/NotificationPage.tsx:16-21 | the buckets are keyed by exactly the dates that occur; each notification is in the bucket of its own date and in no other; no bucket is empty; each bucket keeps the input order |
| Notifications.DateOrderSpec | src/pages/notification/NotificationPage.tsx:17-20 | the created dates are exactly the dates that occur, each listed once |
| Notifications.OfDateMembers | src/pages/notification/NotificationPage.tsx:16-21 | a notification is in the bucket of a date if and only if it is in the list and has that date |
| Notifications.OfDateInOrder | src/pages/notification/NotificationPage.tsx:21 | pushing onto a bucket keeps the bucket in input order |
| Notifications.GroupSizesSum | src/pages/notification/NotificationPage.tsx:15-23 | the bucket sizes add up to the number of notifications, so nothing is lost or duplicated |
| Notifications.GroupedEmpty | src/pages/notification/NotificationPage.tsx:15-23 | no notifications give no buckets |

## Left out

- The WebSocket connection lifecycle (`onopen`, `onerror`, `onclose`, `close`) and console logging are left out. `JSON.parse` is modelled only by its outcome, the `Message` datatype.
- Prices in a message that are not numbers are left out: strings, booleans, nested objects, and keys inherited from `Object.prototype` such as `constructor`. A message maps each key to a `real`.
- Timers are not modelled as a clock. Each 500 ms or 1 s reset is the operation `ClearMark` or `ClearChange`, and the handlers return what they schedule. Interleavings of timers with later messages follow from calling these operations in any order.
- React's batching of state updates is left out, and so is the double invocation of updater functions in development mode. Each handler is modelled as applying its updates once, in order.
- `Math.random` is left out. The initial price history and each tick's drawn price are inputs (`Load`, and `Tick`'s `newPrice`).
- `AssetDetail.AssetDetailPage.Tick`: `Number.parseFloat(newPrice.toFixed(2))` is not computed. The rounded price is the input `shownPrice`, because rounding to two decimals is floating-point formatting.
- `toLocaleDateString` is left out. The date of a timestamp is the caller's function `dateOf`, because it depends on the locale and on date parsing.
- `toLowerCase` maps only ASCII `A`-`Z`. Unicode case mapping is left out.
- `Object.keys` order in the hook is not fixed by the model. The hook's loop visits the keys in any order, and its result is proved the same for every order.
- The order in which a JavaScript object lists the notification buckets is left out. JavaScript lists integer-like keys first. `DateOrder` gives the bucket-creation order instead.
- The fetch of the asset list in `MarketPage.tsx:24-45` is left out, with its error path and loading flag. Only its result is modelled, as `ReceiveAssets`.
- Rendering and markup are left out: table cells, colours, the chart, icons, badges and navigation.
- The login form schema, the API modules, the react-query hooks and the other pages are left out. They are request plumbing, a validation library or markup.
- `src/api/config.ts` is left out as network-client plumbing. It attaches the stored token to each request, and on status 401 it clears the token and redirects to the login page.
