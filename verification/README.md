# Investment app: positions, valuation history and price ingestion

A model of the core of a small portfolio tracker. The tracker is an Express
backend over PostgreSQL with a React front end. Every database table is an
in-memory sequence of rows, and every handler is a pure function from a
request and the tables to a response and the new tables. The model covers:

- **Position aggregator** (`recomputeCurrentAssets`), in `positions.dfy`.
  It folds the operation log, ordered by (op_date, id), into one holding per
  ticker: quantity and weighted-average cost. A sell is clamped at zero, and
  only positive holdings are written to `current_assets`.
- **Operation handler** (`POST /api/operations`), in `operations.dfy`. It
  covers field checks, side normalisation, the oversell guard, the trimmed
  insert and the recompute.
- **`insertPriceIfMissing`**, in `price_table.dfy`. It is an insert into a
  table keyed by (ticker, date).
- **Valuation history, service version** (`historyService.js`), in
  `history_service.dfy`, `series.dfy` and `buckets.dfy`:
  - the date grid and ISO dates (`calendar.dfy`);
  - signed cumulative quantities and forward-filled prices;
  - the daily total, the "last value in bucket" regrouping and stride
    downsampling.
- **Valuation history, SQL routes** (`routes/history.js`), in
  `history_route.dfy`. They cover the ticker filter, the grid starting at the
  earliest operation, holdings and prices "latest row on or before the day",
  and the SUM per bucket.
- **Price ingestion** (`updateLastPricesService.js`), in `price_ingest.dfy`.
  It covers:
  - the locale number normaliser;
  - the `d/m/yyyy` date reader;
  - the FT price rewrite;
  - candidate selection in a 14-day window;
  - fund selection;
  - the checked/updated/skipped report.
- **Run gating** (`routes/updateLastPrices.js`), in `price_runs.dfy`. It
  covers the cron secret, the force flag, once-per-day claiming of the run
  row and finalising that row.
- **Metrics** (`routes/metrics.js`), in `metrics.dfy`, and the **asset
  list** (`routes/assets.js`), in `assets.dfy`.
- **Front end**: the message lookup `t` (`i18n.dfy`), and the add-operation
  form's number parser and submit check (`add_asset.dfy`).

The model relies on the following modelling choices:

- **Dates** are day numbers, counted from 0001-01-01 in the proleptic
  Gregorian calendar (`calendar.dfy`). `new Date(y, m - 1, d)` is modelled
  with its month and day roll-over and with its reading of years 0-99 as
  1900-1999.
- **JavaScript's `Number(string)`** is modelled in `jsnumber.dfy`. That
  covers trimming, "" being 0, sign, decimals, exponent, hex/octal/binary
  literals and `Infinity` being non-finite.
- **String built-ins** are in `text.dfy`: `trim`, `split`, `replace`,
  `indexOf` and case mapping. Case mapping covers the letters whose simple
  mapping is ASCII: the ASCII letters, the long s (ſ) and the dotless i (ı)
  upward, and the Kelvin sign downward.
- **Sorting.** The stable sort behind `ORDER BY` and `Array.prototype.sort`
  is in `sorting.dfy`.
- **Operation sides.** The code spells them three different ways. One `Side`
  datatype is read by one classifier per reader, in `tables.dfy`.
- **Bucket keys.** Both bucketings (last value per bucket, and sum per
  bucket) are generic over their bucket-key function. The day, week, month
  and year keys are instances of it.

## Model

| member | source | states |
|---|---|---|
| Tables.AggregatorSide | backend/src/bootstrap.js:14-22 | the aggregator treats an operation as a buy exactly when operation_type is "buy", and as a sell exactly when it is "sell"; anything else is neither |
| Tables.ServiceSide | backend/src/services/historyService.js:93 | the history service subtracts exactly the "sell" rows and adds every other row, including one with no type |
| Tables.RouteSide | backend/src/routes/history.js:63 | the SQL history adds exactly the 'BUY' rows and subtracts every other row |
| Tables.RequestSide | backend/src/routes/operations.js:20 | a request is a sell exactly when String(side) upper-cases to "SELL"; everything else, absent included, is a buy |
| Tables.SellSpellings | backend/src/routes/operations.js:20 | "sell", "Sell" and "SELL" are all sells |
| Tables.MissingSideIsBuy | backend/src/routes/operations.js:20 | an absent side (String gives "undefined") and an empty side both count as buys |
| Tables.LongSSell | backend/src/routes/operations.js:20 | "ſell" upper-cases to "SELL" and so is a sell |
| Tables.OtherSideIsBuy | backend/src/routes/operations.js:20 | an unknown side such as "short" counts as a buy |
| Tables.HandlerRowsReadDifferently | backend/src/routes/operations.js:41-43 | rows the handler writes carry only `side`: the aggregator sees no operation_type and so treats them as neither buy nor sell, the service counts them as buys, and the SQL route reads their side back faithfully |
| Tables.DateLiteral | backend/src/routes/operations.js:43 | a date literal the database accepts always names a valid calendar day |
| Tables.DateLiteralOfISO | backend/src/services/pricesOnOperation.js:25 | an ISO date literal names exactly the day it was printed from |
| Tables.JsonNumber | backend/src/routes/operations.js:21-22 | Number() of a JSON value: a number is itself, a string is read as JavaScript reads it, and a boolean is 1 or 0 |
| Positions.ApplyOp | backend/src/bootstrap.js:13-24 | a buy adds the quantity and moves the average to the quantity-weighted mean (0 when the new quantity is not positive); a sell subtracts the quantity, clamps at 0 and keeps the average; any other type changes neither; name and asset type keep the first non-empty value |
| Positions.SellOutThenBuy | backend/src/bootstrap.js:14-22 | after selling at least the whole holding, a positive buy leaves exactly the bought quantity at exactly the buy price |
| Positions.Replay | backend/src/bootstrap.js:10-26 | folding the log for one ticker yields a holding of that ticker |
| Positions.ReplayNoneIff | backend/src/bootstrap.js:11-13 | a ticker has a holding if and only if some operation names it |
| Positions.ReplayName | backend/src/bootstrap.js:13-24 | a holding's name is the first non-empty name among that ticker's operations, in log order |
| Positions.ReplayNonNegative | backend/src/bootstrap.js:14-22 | when buy quantities and prices are non-negative, neither the quantity nor the average ever goes negative |
| Positions.WeightedAverageExample | backend/src/bootstrap.js:14-24 | buying 10 at 100, then 10 at 120, then selling 5 leaves 15 units at an average of 110, with the first name kept |
| Positions.Fold | backend/src/bootstrap.js:10-26 | the ticker map holds each ticker at most once, and its entry for every ticker is that ticker's fold of the log |
| Positions.OrderedLog | backend/src/bootstrap.js:5-9 | the log is read as a permutation of the operations table, sorted by (op_date, id) |
| Positions.Positive | backend/src/bootstrap.js:27-38 | exactly the holdings with positive quantity are emitted, one row per ticker |
| Positions.Snapshot | backend/src/bootstrap.js:3-40 | current_assets holds one row per ticker, and that row is the ticker's ordered fold whenever its quantity is positive |
| Positions.Recompute | backend/src/bootstrap.js:3-40 | the operations and prices are untouched; current_assets is replaced wholesale and lists a ticker iff its fold ends with positive quantity |
| Positions.RecomputeIdempotent | backend/src/bootstrap.js:3-40 | recomputing twice gives the same tables as recomputing once |
| Positions.SnapshotIgnoresRowOrder | backend/src/bootstrap.js:5-9 | with unique ids, the snapshot does not depend on the order in which the table stores its rows |
| OperationsRoute.PostOperation | backend/src/routes/operations.js:12-53 | the response is 400 "missing" iff a required field is falsy or a number is null; otherwise it is 400 "invalid" iff a number is not finite and positive; otherwise it is 409 iff a sell of a string ticker exceeds its trimmed holding; otherwise it is 500 iff name, ticker or asset type is not a string (its `.trim()` throws) or the database rejects the date, and 201 otherwise. Every non-201 answer leaves the tables unchanged. A 201 appends the trimmed row and recomputes the positions |
| OperationsRoute.HeldQuantity | backend/src/routes/operations.js:30-34 | the current quantity of the ticker, or 0 when it has no row |
| OperationsRoute.NewRow | backend/src/routes/operations.js:40-44 | the stored row has trimmed name, ticker and asset type, the normalised side, no operation_type and a fresh id |
| OperationsRoute.SellWholeHoldingAllowed | backend/src/routes/operations.js:35 | selling exactly the quantity held is accepted with 201 |
| OperationsRoute.SellUnheldRefused | backend/src/routes/operations.js:28-38 | selling a ticker with no current row is refused with 409, and nothing changes |
| OperationsRoute.NonTextNameFails | backend/src/routes/operations.js:16-43 | a truthy name that is not a string passes the falsy check and then fails `name.trim()`: 500, nothing stored, even for a valid buy |
| OperationsRoute.NonTextTickerSellFails | backend/src/routes/operations.js:28-32 | on a sell, a ticker that is not a string fails `ticker.trim()` before the holding is read: 500 rather than 409 |
| OperationsRoute.NumberNameIsTruthy | backend/src/routes/operations.js:16 | the JSON number 5 is truthy and is not a string |
| OperationsRoute.BlankNameStoredEmpty | backend/src/routes/operations.js:16-43 | a name of one space passes the check, because it is truthy, and is stored as "" |
| PriceTable.Slice10 | backend/src/services/pricesOnOperation.js:17-18 | the first ten characters of the date text, or all of it when shorter |
| PriceTable.DayOf | backend/src/services/pricesOnOperation.js:17-19 | a string names the day of its first ten characters; a Date value names its own day exactly when its year has four digits, and otherwise fails (the `+0YYYYY` text is rejected by the cast, an Invalid Date throws) |
| PriceTable.ISOStringCast | backend/src/services/pricesOnOperation.js:19 | the cast of the first ten characters of `toISOString` reads back the day iff the year is at most 9999, and fails otherwise |
| PriceTable.ISOStringReadBack | backend/src/services/pricesOnOperation.js:19 | a four-digit (zero-padded) year reads back as the same day |
| PriceTable.ExpandedYearRejected | backend/src/services/pricesOnOperation.js:19 | from year 10000 on the text starts with `+`, which the cast rejects |
| PriceTable.InsertPriceIfMissing | backend/src/services/pricesOnOperation.js:13-32 | no change when the ticker or date is falsy or the price is null; an error when the date is unreadable; otherwise the (ticker, day) key is present afterwards, an existing row for it is kept, and a missing one is appended with the unit price |
| PriceTable.InsertIdempotent | backend/src/services/pricesOnOperation.js:5-6 | a second identical call leaves the table as the first left it |
| PriceTable.InsertKeepsRows | backend/src/services/pricesOnOperation.js:22-31 | existing rows are never changed or removed, and at most one row is added |
| PriceTable.ZeroPriceInserted | backend/src/services/pricesOnOperation.js:14 | a unit price of 0 is inserted for a Date up to year 9999 (past it the cast fails whatever the price); only null is skipped |
| PriceTable.TimestampTruncated | backend/src/services/pricesOnOperation.js:17-18 | a timestamp string names the same key as its date |
| Metrics.MaxDate | backend/src/routes/metrics.js:11 | the ticker's greatest price date, or none when it has no price |
| Metrics.ClosingOn | backend/src/routes/metrics.js:9-12 | a price on that (ticker, date) exists exactly when some row has that key |
| Metrics.LatestClose | backend/src/routes/metrics.js:8-13 | a ticker has a latest close exactly when it has some price row |
| Metrics.JoinOne | backend/src/routes/metrics.js:17-18 | the left join keeps an unpriced position once, with NULL, and repeats a priced one once per latest row |
| Metrics.ComputeMetrics | backend/src/routes/metrics.js:7-24 | gain_loss is value minus investment; the percentage times the investment is 100 times the gain when the investment is positive, and 0 otherwise; no positions give all zeros |
| Metrics.PercentScales | backend/src/routes/metrics.js:24 | a positive base scales the percentage back to the gain |
| Metrics.UniqueKeysCountOnce | backend/src/routes/metrics.js:15-18 | with at most one price per (ticker, date), investment is the sum of average_price*quantity, and value is the sum of latest close*quantity over priced positions |
| Metrics.JoinUnique | backend/src/routes/metrics.js:15-18 | with unique price keys, the joined rows add up to the per-position sums |
| Metrics.RowsOnUnique | backend/src/routes/metrics.js:9-12 | with unique price keys, a (ticker, date) matches at most one row |
| Metrics.DuplicateCountsTwice | backend/src/routes/metrics.js:8-18 | two price rows on a ticker's latest date double both its investment and its value |
| Metrics.UnpricedAddNothing | backend/src/routes/metrics.js:16 | positions without prices add nothing to the value, so the loss is the whole investment |
| Metrics.InsertKeepsKeysUnique | backend/src/services/pricesOnOperation.js:22-31 | inserting a price if missing keeps price keys unique |
| Assets.Latest | backend/src/routes/assets.js:40-46 | the asset's price row with the greatest date, or none when it has none |
| Assets.CurrentPrice | backend/src/routes/assets.js:29-46 | NULL exactly when the asset has no price; otherwise the closing price of a row with the latest date |
| Assets.ViewOf | backend/src/routes/assets.js:27-38 | invested is price*quantity; current value and absolute P&L are NULL exactly when there is no price, and are otherwise price*quantity and value minus invested; the percentage also needs a positive purchase price, and is then (price - purchase price) / purchase price * 100 |
| Assets.PctIsPnlOverInvested | backend/src/routes/assets.js:33-38 | for a non-zero quantity, the percentage is the absolute P&L over the invested amount, times 100 |
| Assets.NewerPriceWins | backend/src/routes/assets.js:44 | a price dated after all of the asset's other prices becomes its current price, wherever it is stored |
| Assets.ListAssets | backend/src/routes/assets.js:23-50 | one row per asset, in ascending id order, each with its derived columns |
| Assets.ListIsTable | backend/src/routes/assets.js:39-47 | the list holds exactly the table's rows, with their multiplicities |
| Assets.NextId | backend/src/routes/assets.js:10-12 | the serial id exceeds every existing id |
| Assets.CreateAsset | backend/src/routes/assets.js:6-15 | the stored and returned row carries the body's fields and an id no other row has |
| Assets.CreatedIsListedLast | backend/src/routes/assets.js:6-47 | a newly created asset is listed last, with its invested amount and no price columns |
| I18n.GetLang | frontend/src/utils/i18n.js:160-163 | the language is always "es" or "en", and it is "es" exactly when "es" is stored |
| I18n.Lookup | frontend/src/utils/i18n.js:167 | `table[key]` is the own message when the key is present, otherwise the member inherited from Object.prototype when the key names one, otherwise undefined |
| I18n.Message | frontend/src/utils/i18n.js:167 | an entry is used exactly when it is a present, non-empty message or, for an absent key, an inherited member |
| I18n.T | frontend/src/utils/i18n.js:165-168 | the result is the key, the English message, with Spanish chosen the Spanish message, or an inherited member, the last only for a key naming one that a table lacks; it is never undefined and never empty for a non-empty key |
| I18n.CurrentLanguageFirst | frontend/src/utils/i18n.js:167 | a present, non-empty message in the current language wins |
| I18n.SpanishFallsBackToEnglish | frontend/src/utils/i18n.js:167 | a missing or empty Spanish message falls back to what English shows, except that a key missing from Spanish and naming an inherited member shows that member |
| I18n.KeyShownWhenUntranslated | frontend/src/utils/i18n.js:167 | with no usable message in either language, the key itself is shown, unless it names an inherited member that one of the tables lacks |
| I18n.ConstructorIsInherited | frontend/src/utils/i18n.js:167 | t("constructor") with no such message is the inherited Object function, not the key |
| I18n.UnsupportedIsEnglish | frontend/src/utils/i18n.js:162 | every stored value other than "es" behaves as English |
| AddAsset.ParseLocaleNumber | frontend/src/components/AddAssetModal.jsx:6-11 | null for null and "", otherwise `Number` of the text with every dot deleted and the first comma made the point, null when that is not finite |
| AddAsset.DotsIgnored | frontend/src/components/AddAssetModal.jsx:8 | deleting the dots beforehand does not change the reading, unless nothing would be left |
| AddAsset.OnlyDotsReadZero | frontend/src/components/AddAssetModal.jsx:7-10 | "." passes the empty-text test, becomes "" and reads as 0 |
| AddAsset.GroupedDecimal | frontend/src/components/AddAssetModal.jsx:8 | digit groups in the form "a.b,c" read as the number ab.c |
| AddAsset.CommaDecimal | frontend/src/components/AddAssetModal.jsx:8 | "a,c" reads as a.c |
| AddAsset.DotIsGrouping | frontend/src/components/AddAssetModal.jsx:8 | a dot is never the decimal point: "1.5" reads as 15 |
| AddAsset.TwoCommasRejected | frontend/src/components/AddAssetModal.jsx:8-10 | a second comma makes the text unreadable ("1,2,3" gives null) |
| AddAsset.SingleDotReadsDifferently | frontend/src/components/AddAssetModal.jsx:8 | the form reads "a.b" as ab, while the price ingestion reads it as a.b |
| AddAsset.Submit | frontend/src/components/AddAssetModal.jsx:32-54 | the form posts iff name, ticker and date are non-empty and both numbers parse; the body is then a "buy" carrying the fields and the parsed numbers |
| AddAsset.AsRequest | frontend/src/components/AddAssetModal.jsx:45-54 | the posted body carries no `side` field |
| AddAsset.PostedIsBuy | frontend/src/components/AddAssetModal.jsx:49 | a posted form carries no side, so the handler reads it as a buy |
| AddAsset.ZeroPriceRefusedByHandler | frontend/src/components/AddAssetModal.jsx:36-41 | the form accepts price "0", which the handler then refuses with 400 |
| Calendar.WeekdayAnchors | backend/src/services/historyService.js:41 | the day numbering agrees with getDay(): 1970-01-01 is a Thursday and 2024-01-01 a Monday |
| Calendar.MakeDateOfValid | backend/src/services/historyService.js:12 | new Date(y, m-1, d) of a valid date from year 100 on is that date up to 275760-09-13, the last day a Date can hold, and an Invalid Date after it |
| Calendar.LastJsDayIs | backend/src/services/historyService.js:12 | the last day a Date can hold is 100,000,000 days after 1970-01-01, which is 275760-09-13 |
| Calendar.FourDigitYearFits | backend/src/services/historyService.js:12 | every day of a year up to 9999 is a day a Date can hold |
| Calendar.MakeDateTwoDigitYear | backend/src/services/historyService.js:12 | new Date(y, m-1, d) with a year 0-99 builds the date in 1900+y |
| Calendar.MakeDateRollsOver | backend/src/services/historyService.js:12 | an out-of-range day rolls into the next month (2025-02-30 is 2025-03-02) |
| Calendar.MakeDateCarriesMonthsAndDays | backend/src/services/historyService.js:12 | month 13 is January of the next year, and day 0 is the last day of the previous month |
| Calendar.ISORoundTrip | backend/src/services/historyService.js:4-13 | fromISO(toISO(d)) is d for every day from year 100 on up to the last day a Date can hold, and an Invalid Date after it |
| Calendar.ISOStringRoundTrip | backend/src/services/historyService.js:4-13 | toISO(fromISO(s)) is s for every zero-padded YYYY-MM-DD naming a valid date with a four-digit year |
| Calendar.FromISOPieces | backend/src/services/historyService.js:10-13 | "y-m-d" with digit pieces naming a valid date from year 100 on reads as that date, or as an Invalid Date past the last day a Date can hold |
| Calendar.TwoDigitYearQuirk | backend/src/services/historyService.js:10-13 | "y-m-d" with a year below 100 reads as a date in 1900+y |
| Calendar.WeekStart | backend/src/services/historyService.js:39-45 | the Monday on or before the day, at most six days earlier |
| Calendar.MonthStartIsFirst | backend/src/services/historyService.js:46-48 | the month key is the first of the day's month |
| Calendar.YearStartIsFirst | backend/src/services/historyService.js:49-51 | the year key is the first of January of the day's year |
| Calendar.SameMonthIff | backend/src/services/historyService.js:46-48 | two days share a month key iff they share year and month |
| Calendar.SameYearIff | backend/src/services/historyService.js:49-51 | two days share a year key iff they share the year |
| Calendar.WeekStartIdempotent | backend/src/services/historyService.js:39-45 | the week key of a week key is itself |
| Calendar.MonthStartIdempotent | backend/src/services/historyService.js:46-48 | the month key of a month key is itself |
| Calendar.YearStartIdempotent | backend/src/services/historyService.js:49-51 | the year key of a year key is itself |
| Series.DayRange | backend/src/services/historyService.js:29-32 | consecutive days from first to last inclusive, and none when first is after last |
| Series.DayRangeShape | backend/src/services/historyService.js:29-32 | the range ascends strictly and holds exactly the days between its ends |
| Series.LastKnownIndex | backend/src/services/historyService.js:101-102 | the latest grid position at or before k that has a known value, or -1 when there is none |
| Series.ForwardFillLooksBack | backend/src/services/historyService.js:99-104 | the value on grid day k is the known value at the latest known grid day at or before k, and 0 when there is none |
| Series.GroupName | backend/src/services/historyService.js:216 | an absent or empty group is "day"; any other group is lower-cased |
| Series.ParseGrouping | backend/src/services/historyService.js:39-52 | "week", "month" and "year" select their bucketing; every other name is daily |
| Series.BucketStart | backend/src/services/historyService.js:36-53 | the key is never after the day; the day key is the day itself; the week key is a Monday at most six days earlier |
| Series.BucketStartIdempotent | backend/src/services/historyService.js:36-53 | the bucket key of a bucket key is itself |
| Series.BucketStartCalendar | backend/src/services/historyService.js:46-51 | the month key is the first of the month, and the year key the first of January |
| Series.MonthKeyIsISO | backend/src/services/historyService.js:47 | the month key prints as `${year}-MM-01` |
| Series.YearKeyIsISO | backend/src/services/historyService.js:50 | the year key prints as `${year}-01-01` |
| Series.PointLimit | backend/src/services/historyService.js:56 | Number(maxPoints) \|\| 100: 100 when absent or zero, otherwise the number |
| Series.Downsample | backend/src/services/historyService.js:55-63 | the input is unchanged when its length is at most n; otherwise the result starts with the first point, ends on the last date, and has at most n+1 points |
| Series.DownsampleIsSelection | backend/src/services/historyService.js:58-61 | the result is the input at strictly increasing indices |
| Series.DownsampleCanExceedLimit | backend/src/services/historyService.js:61 | eight points with maxPoints 3 give four points |
| Buckets.LatestInBucket | backend/src/services/historyService.js:146-149 | the point with the greatest date among those whose key is k, or none when there is no such point |
| Buckets.KeepLatest | backend/src/services/historyService.js:143-151 | the bucket map holds one entry per key: the key's latest point |
| Buckets.RegroupLast | backend/src/services/historyService.js:142-156 | one point per distinct bucket key, in strictly ascending key order, dated at the key and valued at the bucket's latest point |
| Buckets.RegroupDailyIsIdentity | backend/src/services/historyService.js:142-156 | regrouping an ascending daily series by day returns it unchanged |
| Buckets.OrderedPoints | backend/src/services/historyService.js:153-155 | the map's entries in strictly ascending key order, covering every entry |
| Buckets.SetSlot | backend/src/services/historyService.js:149 | the map entry for the key is set, and every other key is untouched |
| Buckets.AddUp | backend/src/routes/history.js:111-113 | the SQL GROUP BY: one entry per key, holding the sum of its values |
| Buckets.BucketTotals | backend/src/routes/history.js:111-114 | one point per distinct bucket key, in ascending order, valued at the sum of its points |
| Buckets.NoPointsNoTotal | backend/src/routes/history.js:111 | a key no point falls in has total 0 |
| HistoryService.BuildDateRange | backend/src/services/historyService.js:24-34 | consecutive ascending days |
| HistoryService.DateRangeBounds | backend/src/services/historyService.js:24-34 | with both ends given, the range runs from start to end inclusive |
| HistoryService.DateRangeWithoutStart | backend/src/services/historyService.js:27 | without a start, the range is the single end day (today when no end is given) |
| HistoryService.EndPastJsRangeGivesNoDays | backend/src/services/historyService.js:24-34 | an end past 275760-09-13 is an Invalid Date, so the range is empty whatever the start |
| HistoryService.DateRangeBadStart | backend/src/services/historyService.js:25-30 | an unreadable start gives an empty range, because an invalid date never compares as <= end |
| HistoryService.FetchOps | backend/src/services/historyService.js:164-174 | exactly the operations of universe tickers dated on or before the end |
| HistoryService.FetchPrices | backend/src/services/historyService.js:175-184 | exactly the price rows of universe tickers dated on or before the end |
| HistoryService.TickerOps | backend/src/services/historyService.js:66-74 | groupBy: exactly the operations of that ticker |
| HistoryService.CumByDate | backend/src/services/historyService.js:90-97 | there is an entry for exactly the days with an event |
| HistoryService.CumByDateRunningTotal | backend/src/services/historyService.js:90-97 | in a date-sorted list, the entry of an event day is the signed sum of all operations up to and including that day (the end-of-day total) |
| HistoryService.KnownQuantityIsHeld | backend/src/services/historyService.js:84-97 | a ticker's known quantity on an event day is its net signed quantity up to that day |
| HistoryService.KnownQuantityDays | backend/src/services/historyService.js:91-96 | quantities are known exactly on the ticker's operation days |
| HistoryService.QuantityOnGridDay | backend/src/services/historyService.js:82-108 | the quantity on grid day k is the net quantity up to the latest grid day at or before k with an operation, and 0 when there is none |
| HistoryService.PreGridQuantityNotCarried | backend/src/services/historyService.js:99-104 | operations dated before the grid are not carried in: the series stays 0 |
| HistoryService.TickerPrices | backend/src/services/historyService.js:118 | exactly the price rows of that ticker |
| HistoryService.PriceByDate | backend/src/services/historyService.js:122-126 | there is an entry for exactly the days with a price row |
| HistoryService.PriceByDateIsLastRow | backend/src/services/historyService.js:122-126 | a day's entry is the closing price of its last row in list order |
| HistoryService.KnownPriceIsLastRow | backend/src/services/historyService.js:116-126 | a day is priced iff the ticker has a row on it; the price is the last such row's, once rows are stably sorted by date |
| HistoryService.PriceOnGridDay | backend/src/services/historyService.js:116-136 | the price on grid day k is the last row's price on the latest priced grid day at or before k, and 0 when there is none |
| HistoryService.Daily | backend/src/services/historyService.js:204-213 | one point per grid day, valued at the universe's sum of quantity*price |
| HistoryService.HeldTickers | backend/src/services/historyService.js:161-162 | DISTINCT ticker: each ticker of current_assets exactly once |
| HistoryService.Universe | backend/src/services/historyService.js:159-163 | the explicit tickers when there are any; otherwise the tickers of current_assets |
| HistoryService.Shape | backend/src/services/historyService.js:216-222 | regrouping, when asked for, then downsampling: at most the point limit plus one |
| HistoryService.HistoryPortfolio | backend/src/services/historyService.js:187-223 | an empty grid or an empty universe gives []; otherwise at most the point limit plus one points |
| HistoryService.TickerDaily | backend/src/services/historyService.js:235-238 | one point per grid day, valued at quantity*price for the ticker |
| HistoryService.HistoryAsset | backend/src/services/historyService.js:225-247 | an empty grid gives []; otherwise at most the point limit plus one points |
| HistoryService.AssetIsOneTickerPortfolio | backend/src/services/historyService.js:225-247 | the asset history is the portfolio history over the one-ticker universe |
| HistoryService.UnknownGroupIsDaily | backend/src/services/historyService.js:216-222 | an unknown group degrades to the downsampled daily points |
| HistoryService.DailyAscends | backend/src/services/historyService.js:204-213 | the daily points ascend strictly by date |
| HistoryService.PortfolioDailyPoints | backend/src/services/historyService.js:187-222 | with group "day" and a grid no longer than the limit, the result has one point per grid day, valued at the universe's total over the fetched rows |
| HistoryService.FetchKeepsHeld | backend/src/services/historyService.js:164-174 | the fetch loses no operation that matters for a universe ticker on a day up to the end |
| HistoryService.FetchKeepsRows | backend/src/services/historyService.js:175-184 | the fetch loses no price row that matters for a universe ticker on a day up to the end |
| HistoryRoute.BucketExpr | backend/src/routes/history.js:6-14 | "week", "month" and "year", in any case, select their date_trunc; everything else is the day |
| HistoryRoute.BucketExprIgnoresCase | backend/src/routes/history.js:7 | upper-casing the group does not change the bucketing |
| HistoryRoute.KelvinSpellsWeek | backend/src/routes/history.js:7 | "WEE" followed by the Kelvin sign lower-cases to "week" and buckets by week |
| HistoryRoute.ParseTickers | backend/src/routes/history.js:31 | comma-split, trimmed and non-empty pieces; nothing for an absent or empty parameter |
| HistoryRoute.ParseTickersMembers | backend/src/routes/history.js:31 | a ticker is parsed iff it is the non-empty trim of some comma-separated piece |
| HistoryRoute.TrimmedNonEmpty | backend/src/routes/history.js:31 | exactly the non-empty trims of the pieces |
| HistoryRoute.Selected | backend/src/routes/history.js:36-54 | distinct tickers of current_assets, restricted to the list when the list is non-empty |
| HistoryRoute.FilterListed | backend/src/routes/history.js:54 | `t.ticker = ANY($3)` keeps exactly the listed tickers |
| HistoryRoute.OnlyHeldTickersValued | backend/src/routes/history.js:52-54 | a selected ticker always has a current_assets row |
| HistoryRoute.UnheldTickerNotSelected | backend/src/routes/history.js:52-54 | asking for a ticker that is not held selects nothing |
| HistoryRoute.OneTickerParsed | backend/src/routes/history.js:31 | a clean ticker without commas parses to itself |
| HistoryRoute.EarliestDate | backend/src/routes/history.js:45 | MIN(op_date): none for no operations, otherwise the earliest date |
| HistoryRoute.RouteGrid | backend/src/routes/history.js:43-51 | an error iff a given start or end is unreadable; otherwise an ascending grid |
| HistoryRoute.RouteGridDays | backend/src/routes/history.js:43-51 | a day is on the grid iff there is a start (the given one, else the earliest operation) and the day lies between it and the end (the given one, else today) |
| HistoryRoute.LatestAtOrBefore | backend/src/routes/history.js:81-101 | the latest day of the set at or before the grid day, or none when all are later |
| HistoryRoute.HoldingsAreNetUpTo | backend/src/routes/history.js:59-88 | holdings on a day are the 'BUY'-plus, otherwise-minus sum over all operations up to that day, pre-grid ones included |
| HistoryRoute.NothingYetIsZero | backend/src/routes/history.js:79 | before the first operation, the holding is 0 |
| HistoryRoute.QuietDaysAddNothing | backend/src/routes/history.js:84-86 | the cumulative quantity at the latest operation day equals the sum up to the grid day |
| HistoryRoute.PriceAt | backend/src/routes/history.js:89-106 | 0 when the ticker has no price up to the day; otherwise the closing price of a row on the latest such date |
| HistoryRoute.PerDay | backend/src/routes/history.js:103-110 | one point per grid day, valued at the sum of qty*price over the selected tickers; nothing when none is selected |
| HistoryRoute.Pipeline | backend/src/routes/history.js:111-122 | bucket sums, then downsampling: at most the point limit plus one |
| HistoryRoute.PortfolioRoute | backend/src/routes/history.js:26-127 | a failure iff a given start or end is unreadable; an empty log with no start gives no points; a served series has at most the point limit plus one points |
| HistoryRoute.AssetRoute | backend/src/routes/history.js:129-219 | the route as its query intends: a failure iff a given start or end is unreadable; a served series has at most the point limit plus one points, and none when the ticker has no operations and no start is given |
| HistoryRoute.AssetIsOneTickerPortfolioRoute | backend/src/routes/history.js:129-219 | for a held ticker, and a grid that starts on the same day, the asset route answers exactly what the portfolio route answers when that one ticker is listed |
| HistoryRoute.FilterOne | backend/src/routes/history.js:52-54 | listing one held ticker selects exactly that ticker |
| HistoryRoute.FilterNone | backend/src/routes/history.js:52-54 | listing only tickers that are not held selects nothing |
| HistoryRoute.VisibleName | backend/src/routes/history.js:204 | an aliased FROM entry is known by its alias only, an unaliased one by its name |
| HistoryRoute.AssetRouteAsWritten | backend/src/routes/history.js:129-219 | a column reference that names no visible FROM entry fails the request; when it is served, the answer is the intended route's |
| HistoryRoute.AssetRouteAlwaysFails | backend/src/routes/history.js:203-204 | as written, `per_day.total_value` names a relation hidden behind the alias `pd`, so every request answers 500 |
| HistoryRoute.IntendedAssetQueryResolves | backend/src/routes/history.js:203-204 | with the sum reading `pd.total_value`, every column of the final SELECT resolves |
| HistoryRoute.BucketsSumDays | backend/src/routes/history.js:103-114 | each bucket holds the sum of its days' totals, buckets ascend, and every grid day lands in one |
| HistoryRoute.DayBucketIsDayTotal | backend/src/routes/history.js:111 | by day, a bucket's sum is the day's own total |
| HistoryRoute.OtherDaysAddNothing | backend/src/routes/history.js:111 | a day with no points sums to 0 |
| HistoryRoute.PreGridBuyCarriedByRouteOnly | backend/src/routes/history.js:84 | a buy before the grid counts in the route's holdings but not in the service's quantity |
| HistoryRoute.WeekSumVersusLast | backend/src/routes/history.js:111 | over two days of one week, the route reports the sum and the service the last value |
| PriceIngest.ParseLocaleNumber | backend/src/services/updateLastPricesService.js:19-35 | null for null; 0 for blank text (Number("") is 0) |
| PriceIngest.Compact | backend/src/services/updateLastPricesService.js:21 | the compacted text has no whitespace left |
| PriceIngest.SpacesIgnored | backend/src/services/updateLastPricesService.js:21 | spaces and no-break spaces anywhere do not change the reading |
| PriceIngest.CleanParse | backend/src/services/updateLastPricesService.js:21-34 | clean text is read as Number of its normalised form |
| PriceIngest.NormaliseCommaLast | backend/src/services/updateLastPricesService.js:23-26 | when a comma comes after the last dot, the dots are deleted and the comma becomes the point |
| PriceIngest.CommaDecimal | backend/src/services/updateLastPricesService.js:27-28 | "x,c" reads as x without dots, point c |
| PriceIngest.DotDecimal | backend/src/services/updateLastPricesService.js:23-26 | "x.c" with a comma in x reads as x without commas, point c |
| PriceIngest.DotOnlyDecimal | backend/src/services/updateLastPricesService.js:29-32 | "x.c" without commas reads as x without dots, point c ("1.234.567" gives 1234.567) |
| PriceIngest.GroupingConventionsAgree | backend/src/services/updateLastPricesService.js:22-26 | "a.b,c" and "a,b.c" both read as ab.c |
| PriceIngest.EuropeanGrouping | backend/src/services/updateLastPricesService.js:22-26 | "1.234,56" reads as 1234.56 |
| PriceIngest.EnglishGrouping | backend/src/services/updateLastPricesService.js:22-26 | "1,234.56" reads as 1234.56 |
| PriceIngest.CommaFirst | backend/src/services/updateLastPricesService.js:27-28 | with commas only, only the first becomes the point |
| PriceIngest.TwoCommasRejected | backend/src/services/updateLastPricesService.js:27-34 | two commas give null |
| PriceIngest.UnreadableMantissa | backend/src/services/updateLastPricesService.js:33-34 | a number with a comma after its point is not finite, so it gives null |
| PriceIngest.FtPrice | backend/src/services/updateLastPricesService.js:66-70 | no price without a captured price |
| PriceIngest.FtPlainDecimal | backend/src/services/updateLastPricesService.js:69-70 | FT's "a.c" becomes "a,c" and reads as a.c |
| PriceIngest.FtGroupedRejected | backend/src/services/updateLastPricesService.js:69-70 | FT's "a,b.c" becomes "a,b,c" and reads as null |
| PriceIngest.ParseDateFlex | backend/src/services/updateLastPricesService.js:9-16 | a falsy text gives no date |
| PriceIngest.DmyRead | backend/src/services/updateLastPricesService.js:11-12 | "dd/mm/yyyy" reads as new Date(yyyy, mm-1, dd) |
| PriceIngest.DmyValid | backend/src/services/updateLastPricesService.js:11-12 | a valid d/m/yyyy from year 100 on reads as that calendar date |
| PriceIngest.DmyCenturyQuirk | backend/src/services/updateLastPricesService.js:12 | "dd/mm/00yy" reads as the date in 19yy |
| PriceIngest.Captured | backend/src/services/updateLastPricesService.js:54-55 | a capture is kept, trimmed, exactly when it is truthy |
| PriceIngest.FromQuefondos | backend/src/services/updateLastPricesService.js:49-59 | a missing capture gives no price or no date |
| PriceIngest.FromFt | backend/src/services/updateLastPricesService.js:61-73 | a missing capture gives no price or no date |
| PriceIngest.BlankCaptureIsZero | backend/src/services/updateLastPricesService.js:54-56 | a capture of spaces is truthy, and its price is 0 |
| PriceIngest.Usable | backend/src/services/updateLastPricesService.js:146-153 | exactly the candidates of present sources with a price and a date inside [today-13, today] |
| PriceIngest.NewestIndex | backend/src/services/updateLastPricesService.js:161-162 | the first candidate with the newest date |
| PriceIngest.Decide | backend/src/services/updateLastPricesService.js:146-186 | skip without candidates; otherwise skip iff the newest candidate is not strictly newer than the last stored date or its key already exists; an insert is the newest usable candidate |
| PriceIngest.TieKeepsFirstSource | backend/src/services/updateLastPricesService.js:161-162 | on equal dates the quefondos candidate wins |
| PriceIngest.LastPriceDate | backend/src/services/updateLastPricesService.js:103-113 | MAX(date) of the ticker's prices, or none |
| PriceIngest.SelectFunds | backend/src/services/updateLastPricesService.js:99-122 | funds of current_assets: the one named when a ticker is given, otherwise those with no price or a last price before today |
| PriceIngest.RunFunds | backend/src/services/updateLastPricesService.js:124-189 | every fund is checked once and counted as exactly one of updated or skipped; rows are only appended, one per update |
| PriceIngest.RunRowsDecided | backend/src/services/updateLastPricesService.js:124-189 | soundness: every appended row is the insert verdict that the decision gives for some checked fund, against the rows stored before it |
| PriceIngest.FundVerdictStored | backend/src/services/updateLastPricesService.js:124-189 | completeness: each fund's verdict, taken against the rows stored by the funds before it, is appended exactly when it is an insert, and the later funds only append |
| PriceIngest.RunFundsSplit | backend/src/services/updateLastPricesService.js:124-189 | running the funds in two parts gives the same rows as one run, and the report is the sum of the two reports |
| PriceIngest.RunFundsStep | backend/src/services/updateLastPricesService.js:124-189 | one fund adds one to checked and one to exactly one of updated or skipped, then the rest run on its result |
| PriceIngest.RunRowsFromFunds | backend/src/services/updateLastPricesService.js:182-185 | each appended row belongs to a checked fund's trimmed ticker |
| PriceIngest.RunAddsFreshKeys | backend/src/services/updateLastPricesService.js:171-185 | each appended row has a key absent before it, dated inside the window |
| PriceIngest.TickerOf | backend/src/services/updateLastPricesService.js:90 | the destructured ticker: the option's ticker, and "" for no argument or a bare string |
| PriceIngest.RunUpdateLastPrices | backend/src/services/updateLastPricesService.js:90-195 | only prices change, by appending; checked is the number of selected funds, and it equals updated plus skipped; every new row is the price of a current fund, the named one when a ticker is given |
| PriceIngest.UpdateIsLoop | backend/src/services/updateLastPricesService.js:90-195 | the update's prices are the per-fund loop run over the selected funds on the stored prices |
| PriceIngest.UpdateStoresVerdicts | backend/src/services/updateLastPricesService.js:90-195 | for each selected fund, an insert verdict taken after the funds before it is stored at the next position of the final table |
| PriceRuns.RequireCronSecret | backend/src/routes/updateLastPrices.js:55-65 | 500 iff no secret is set; pass iff the header, or the key when there is no header, equals the secret; 401 otherwise |
| PriceRuns.HeaderShadowsKey | backend/src/routes/updateLastPrices.js:60 | a wrong header is refused even when the query key is right |
| PriceRuns.NextRunId | backend/src/routes/updateLastPrices.js:20-23 | a serial id above every existing id |
| PriceRuns.RunIdOn | backend/src/routes/updateLastPrices.js:108 | the id of the day's run row, present exactly when the day has one |
| PriceRuns.TryCreatePending | backend/src/routes/updateLastPrices.js:18-27 | a day that has a row is left alone and gives no id; otherwise a fresh pending row is appended and its id is returned |
| PriceRuns.UpsertPending | backend/src/routes/updateLastPrices.js:79-86 | the day's row exists and is pending afterwards, with its old id when it existed or a fresh appended id when not; other days' rows are unchanged |
| PriceRuns.SetPending | backend/src/routes/updateLastPrices.js:82 | the conflict update resets only the day's rows to pending |
| PriceRuns.UpdatedCount | backend/src/routes/updateLastPrices.js:33 | updated \|\| updatedCount \|\| 0 is the report's updated count |
| PriceRuns.FinalizeRun | backend/src/routes/updateLastPrices.js:30-48 | no change without an id; otherwise only the row with that id changes, to ok with its count or to error |
| PriceRuns.FinalizeMarks | backend/src/routes/updateLastPrices.js:30-48 | finalising the day's run marks the day ok with the count, or error |
| PriceRuns.Claim | backend/src/routes/updateLastPrices.js:77-93 | there is no id exactly when the call is unforced and the day already has a row; a claimed id is the day's row |
| PriceRuns.FailClaimed | backend/src/routes/updateLastPrices.js:95-114 | the update runs, marking it ok raises, and the catch marks the day's row error and answers 500; prices are only appended, only for a named ticker, and rows of other ids are unchanged |
| PriceRuns.RunClaimed | backend/src/routes/updateLastPrices.js:95-100 | a run answers ok for the day with the update's own report and marks the row ok with the count; prices are only appended, and only for the requested ticker |
| PriceRuns.HandleWith | backend/src/routes/updateLastPrices.js:70-115 | "already ran", with no change, iff unforced on a day that has a row; otherwise a failure iff marking the run ok raises; a run answers the update's own report; prices are only appended, and the day's row records the outcome |
| PriceRuns.FailureKeepsInserts | backend/src/services/updateLastPricesService.js:190-194 | the updater swallows its own errors, so a failure when marking the run leaves the same prices a clean run does |
| PriceRuns.HandleRunAsWritten | backend/src/routes/updateLastPrices.js:70-115 | the mounted handler: "already ran" iff unforced on a day with a row, and then nothing changes; otherwise the prices are those of an update of every due fund, whatever the ticker, a run answers that update's report, and the day's row records ok with the count or error |
| PriceRuns.BareTickerRunsAll | backend/src/routes/updateLastPrices.js:96 | the update a bare ticker string starts is the update with no ticker |
| PriceRuns.HandleRun | backend/src/routes/updateLastPrices.js:70-115 | with the ticker passed as the updater's option, old prices are kept and new rows carry only the requested ticker |
| PriceRuns.BareTicker | backend/src/routes/updateLastPrices.js:96 | a bare string carries no `ticker` field to destructure |
| PriceRuns.TickerOption | backend/src/routes/updateLastPrices.js:96 | the option object carries the ticker whenever it is truthy |
| PriceRuns.AsWrittenIgnoresTicker | backend/src/routes/updateLastPrices.js:96 | as written, the run does not depend on the ticker parameter |
| PriceRuns.AsWrittenChecksOtherFunds | backend/src/routes/updateLastPrices.js:96 | with two due funds and a request for one, as written both are checked, whereas the option checks one |
| PriceRuns.OncePerDay | backend/src/routes/updateLastPrices.js:88-92 | after a run or a failure of the mounted handler, an unforced request the same day answers "already ran" and changes nothing |
| PriceRuns.SecureRun | backend/src/routes/updateLastPrices.js:127 | a refused secret changes nothing; a passed one is exactly the handler as written |

## Left out

- HTTP, Express and database plumbing (`db.js`, `server.js`, `api.js`): I/O only. Each handler is a function from a request record and the tables to a response and the new tables.
- The schema DDL in `bootstrap` (backend/src/bootstrap.js:42-77). The handlers assume a different schema, and the model follows the handlers. The DDL makes `operation_type` NOT NULL with only 'buy' and 'sell' allowed, and it creates no `side` column, so the INSERT of `side` in operations.js:40-44 and the reads of `o.side` in history.js:63 and :160 would fail against it. It creates neither the `assets` table nor `prices.asset_id`, both of which assets.js reads. `Tables`, `OperationsRoute` and `Assets` model the tables as the handlers use them.
- Network and scraping: `fetchHTML` and the regular expressions of `parseQuefondos` and `parseFT` are not modelled. The captured price and date strings, or the absence of a source, are inputs (the `scrape` parameter).
- Free-text dates in `parseDateFlex` (updateLastPricesService.js:13-15): they depend on the engine's `Date` string parser. That path is a parameter (`freeText`).
- Clocks and time zones: `new Date()`, `todayISO`, `todayMadridISO`, `startOfDay` and the UTC shift of `toISOString`. "Today" is a parameter, and dates are naive calendar days. One consequence: the error path of the price run (backend/src/routes/updateLastPrices.js:107) reads the clock again, so a run that crosses midnight looks up, and marks as error, the next day's row (usually none); the model marks the row of the same `day` the run claimed.
- Calendar.MakeDate: a day before 0001-01-01 counts as an Invalid Date, though a JavaScript `Date` reaches back to -271821-04-20; no text the date readers take names such a day, since `fromISO` splits on '-' so its pieces carry no sign, and the `d/m/yyyy` pieces are digits. The end of the range, 275760-09-13, is taken in UTC: `new Date(y, m, d)` is local midnight, so in a time zone west of UTC that last day is already an Invalid Date.
- Date order: the source compares dates as `YYYY-MM-DD` text (backend/src/services/updateLastPricesService.js:149-150 and :165 against `toISOString` text, backend/src/services/historyService.js:148), the model compares day numbers. The two orders agree for years 1000 to 9999; outside that range (a year with fewer or more than four digits) text order and day order differ, and the model follows day order.
- Concurrency: the check-then-insert race in operations.js, `Promise.all`, and simultaneous runs on one day.
- Floating point and NUMERIC(18,8): money and quantities are exact reals, so double rounding, overflow to `Infinity` and `NaN` arithmetic are not modelled.
- Logging and the report's `errors` array: they are side channels. The service's catch-all (updateLastPricesService.js:190-192) ends a run early on a failing query and keeps what it inserted; the model's runs do not fail part-way.
- The React UI and `Intl` formatting: rendering only.
- Exceptions from the run gating other than `finalizeRun`'s UPDATE: the `fails` flag models that UPDATE raising after the update ran. A failure of the claiming query, or of the catch's own queries, is not modelled.
- PriceIngest.ParseLocaleNumber: its contract states only the null and blank cases. The per-shape readings are the lemmas listed above, and non-numeric text is left to `JsNumber.NumberOf`.
- PriceIngest.ParseDateFlex: its contract states only the falsy case. The `d/m/yyyy` readings are `DmyRead`, `DmyValid` and `DmyCenturyQuirk`.
- PriceIngest.FromQuefondos, PriceIngest.FromFt: their contracts state only the missing captures. The readings come from `ParseLocaleNumber`, `FtPrice` and `ParseDateFlex`.
- Positions.Replay: its contract states only the ticker. The fold's laws are `ReplayNoneIff`, `ReplayName`, `ReplayNonNegative` and `ApplyOp`.
- HistoryService.BuildDateRange: its contract states only that the range is consecutive and ascending. Its ends are `DateRangeBounds`, `DateRangeWithoutStart` and `DateRangeBadStart`.
- Series.Downsample, HistoryRoute.Pipeline: `Number(maxPoints)` of a non-numeric string is `NaN`, and `NaN || 100` is 100. The model takes the limit as an optional integer, and requires it to be non-negative when given, because a negative limit makes the source loop forever. A limit of 0 is falsy and becomes 100, so `Downsample` always receives at least 1.
- Tables.DateLiteral: it reads only `YYYY-MM-DD` digit groups that name a valid day. PostgreSQL's date input also takes timestamps ('2024-01-05T10:30:00Z', '2024-01-05 10:30'), surrounding whitespace, '20240105', month names ('Jan-08-1999') and the special words 'today', 'epoch', 'yesterday' and 'tomorrow'. Those texts count as rejected. Modelling the full date input syntax, and the clock behind the special words, is out of scope. The members that rest on it inherit the gap, listed next.
- OperationsRoute.PostOperation: answers 500 for an `op_date` outside `Tables.DateLiteral`'s forms, where the database would insert it and the route would answer 201. Its `side` and `op_date` are taken as strings: a number or boolean `side` goes through `String()` and is a buy, and a non-string `op_date` is sent to the database as its text, neither of which the request type expresses.
- Tables.JsonNumber, OperationsRoute.PostOperation: a request field is a JSON scalar (number, string, boolean) or absent; arrays and objects are not modelled. Both are truthy, `.trim()` of either throws, and `Number` of an array reads its joined text (`Number([5])` is 5).
- PriceTable.InsertPriceIfMissing: returns an error for a date text outside `Tables.DateLiteral`'s forms, such as 'today', which PostgreSQL would insert.
- HistoryRoute.RouteGrid: fails on a `start` or `end` outside `Tables.DateLiteral`'s forms, such as 'today', which the `::date` cast accepts.
- HistoryRoute.PortfolioRoute, HistoryRoute.AssetRoute, HistoryRoute.AssetRouteAsWritten: fail through `RouteGrid` on the same date texts.
- Tables.RequestSide, Series.GroupName, HistoryRoute.BucketExpr, PriceRuns.HandleWith: `Text.ToUpper` and `Text.ToLower` leave non-ASCII letters other than ſ, ı and the Kelvin sign unchanged, and they do not expand ß or the ligatures (ﬀ, ﬁ, ﬅ) into several letters. None of those mappings yields an ASCII word the members compare against ("SELL", "week", "month", "year", "day", "true"), so their answers are unaffected, but the mapped strings themselves differ from JavaScript's.
- HistoryRoute.PriceAt, HistoryService.KnownPriceIsLastRow, Assets.Latest: `prices` has no unique key on (ticker, date), and the SQL breaks no ties. When two rows share a ticker's date, which one `LIMIT 1` or the service's `ORDER BY date` puts first is unspecified. The model fixes a choice by table order: the first such row for the route and the asset list, the last for the service.
- PriceIngest.SelectFunds: the funds are taken in table order, not `ORDER BY ticker` (updateLastPricesService.js:118). The set of funds checked and the rows added are the same; only the order in which rows are appended can differ.
- PriceIngest.TickerOf: the updater's `{ ticker = "" }` default for an explicit `undefined` field is folded into "no ticker".

## Findings

| source | as written | input that shows it | evidently intended | confidence | as-written member | corrected member |
|---|---|---|---|---|---|---|
| backend/src/routes/history.js:203-204 | the final SELECT of the asset route sums `per_day.total_value` from `FROM per_day pd`; once aliased, `per_day` can no longer be named, so PostgreSQL rejects the statement | any request to `/asset/:ticker`: the query fails and the route answers 500 | sum `pd.total_value` | not executed | HistoryRoute.AssetRouteAlwaysFails | HistoryRoute.AssetRoute |
| backend/src/routes/updateLastPrices.js:96 | the ticker is passed as a bare string, but the updater destructures `{ ticker }` from its argument (updateLastPricesService.js:90), so the ticker filter is always empty | `?ticker=A` with funds A and B both due: both are checked and updated | pass `{ ticker }`, so that only the requested fund is checked | not executed | PriceRuns.AsWrittenChecksOtherFunds | PriceRuns.HandleRun |
