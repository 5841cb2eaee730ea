# Crypto portfolio tracker — a Dafny model of its core

The tracker keeps three tables (candles, portfolios and their holdings) and
two process-wide dictionaries (conversion rates per 1 USD, and display names
of base assets). It talks to a crypto exchange for candle history and
spot prices. This project models the logic that sits between the exchange
and the tables:

- **Schemas** (`schemas.dfy`): the positional decoder of one raw candle
  record, `[open_time_ms, open, high, low, close, volume, close_time_ms, ...]`.
- **Klines** (`klines.dfy`): the ingestion of a batch of raw records into the
  candle table (`KlineTable.FetchAndStore`). Malformed entries are skipped
  and counted. Keys `(symbol, open_time)` that are already present are not
  stored again. Also the close-price analysis of one symbol (`AnalyzeKlines`).
- **Rates** (`rates.dfy`): the resolution of one fiat rate from the USDT
  pairs (`GetFiatRate`) and the in-place refresh of the rate table
  (`RateTable.UpdateAllFiatRates`), starting from the seed table.
- **Holdings** (`holdings.dfy`): the selected portfolio
  (`PortfolioManager`) and the add, update and remove operations on the
  holdings table, keyed by `(symbol, portfolio id)`.
- **Valuation** (`valuation.dfy`): the per-currency totals of the portfolio
  view. The USD total is the sum of amount × price. Every other currency's
  total is the sum of amount × price × rate.
- **Details** (`details.dfy`): the base asset of a pair symbol, its display
  name, its price in every currency, and the editor of the display-name
  table.

The exchange is a parameter: `Ticker = string -> Quote`, a snapshot of the
price endpoint. Each quote is `NoPrice` (the response has no `price`
field), `Price(p)`, or `BadPrice` (a `price` string that does not convert to a number).
Candle batches arrive as sequences of raw records. Each element of a record
is `Num(x)` or `NotNumeric`. The database is modelled as sequences held by
classes. The session uses autoflush, so the model makes rows added earlier
in a batch visible to the existence check of later entries.

## Model

| member | source | states |
|---|---|---|
| Schemas.MillisToSeconds | schemas.py:31 | the seconds value times 1000 is the millisecond timestamp |
| Schemas.ToList | schemas.py:19-28 | a candle's raw record has exactly the seven positions the decoder reads, all numeric |
| Schemas.FromList | schemas.py:14-38 | decoding succeeds exactly when the record has at least seven elements and the first seven are numeric; a decoded candle re-encodes to those seven elements |
| Schemas.DecodeEncoded | schemas.py:30-38 | encoding a candle (with any trailing elements) and decoding gives the same candle back |
| Schemas.DecodeIgnoresTail | schemas.py:19-28 | elements after the seventh never change the decoding outcome |
| Klines.IngestedExtends | main.py:122-138 | existing rows are kept, in place and unchanged: a batch only appends rows |
| Klines.IngestedRowsFromBatch | main.py:124-137 | every added row is the candle of a well-formed entry of the batch, with all fields as decoded and the requested symbol, and its key was absent from the table before the batch |
| Klines.MalformedCount | main.py:139-140 | the number of reported errors is at most the batch size |
| Klines.NoMalformedIffAllDecode | main.py:139-140 | no error is reported exactly when every entry of the batch decodes |
| Klines.IngestedKeepsKey | main.py:125-126 | a key already in the table is still there after any batch |
| Klines.IngestedCoversBatch | main.py:124-138 | after a batch, every well-formed entry's (symbol, open time) key is in the table |
| Klines.IngestedNothingNew | main.py:125-126 | a batch whose well-formed entries are all stored already adds no row |
| Klines.IngestIdempotent | main.py:114-143 | fetching the same batch twice stores nothing the second time |
| Klines.IngestedConcat | main.py:122 | handling a batch in two parts equals handling it at once |
| Klines.MalformedEntrySkipped | main.py:139-140 | a malformed entry does not stop the loop: the result equals that of the batch without it |
| Klines.IngestedUniqueKeys | main.py:125-126 | ingestion never creates two rows with the same (symbol, open time) |
| Klines.OverlappingBatches | main.py:125-138 | two overlapping batches [e1, e2] then [e2, e3] of new, distinct keys add exactly three rows, in order |
| Klines.IngestBatch | main.py:120-140 | the loop over a batch yields exactly the specified ingestion; the new-row count is the growth of the table; the error count is the number of malformed entries |
| Klines.KlineTable.FetchAndStore | main.py:114-143 | the new table is the specified ingestion of the batch; the returned count is the number of rows added; the failure count is the number of malformed entries |
| Klines.RowsFor | main.py:148 | the history query returns only rows of the symbol, all taken from the table, and every row of the symbol is among them |
| Klines.RowsForCounts | main.py:148 | the history query holds each row of the symbol exactly as often as the table does, and no other row |
| Klines.MaxOf | main.py:156 | the maximum occurs in the list and bounds every element from above |
| Klines.MinOf | main.py:157 | the minimum occurs in the list and bounds every element from below |
| Klines.SumBetweenBounds | main.py:154 | the sum of n values between lo and hi lies between n·lo and n·hi |
| Klines.MeanBetween | main.py:155 | the mean of a non-empty list lies between any bounds of its elements |
| Klines.Summarize | main.py:154-167 | the count is the number of rows; the mean is the sum of closes over the count; max and min are attained and bound every close; min ≤ mean ≤ max |
| Klines.AnalyzeKlines | main.py:146-167 | no result exactly when no row has the symbol; otherwise the summary of that symbol's rows |
| Klines.AnalysisBoundsEveryClose | main.py:156-157 | any stored row of the symbol has its close between the reported minimum and maximum |
| Klines.AnalyzeExample | main.py:154-167 | closes 10, 20, 30 give count 3, mean 20, max 30, min 10 |
| Rates.GetFiatRate | main.py:70-88 | a priced direct pair USDT+fiat is taken as is; otherwise a rate exists exactly when the reverse pair fiat+USDT has a non-zero price, and it is that price's inverse |
| Rates.Refreshed | main.py:91-101 | same currencies; USD and every unresolved currency keep their rate; every resolved one takes the resolved rate |
| Rates.FailedCurrencies | main.py:99-100 | the currencies reported as not updated are exactly the non-USD ones without a resolved rate |
| Rates.RefreshTakesDirectQuote | main.py:74-77 | a direct quote p sets the rate to p, zero included |
| Rates.RefreshInvertsReverseQuote | main.py:80-85 | without a direct price, a non-zero reverse quote q sets a rate r with r·q = 1 |
| Rates.RefreshKeepsRateOnFailure | main.py:97-100 | with no usable quote, the previous rate stays |
| Rates.RefreshIdempotent | main.py:91-101 | against the same quotes, a second refresh changes nothing |
| Rates.RateTable.constructor | config.py:2-8 | the table starts as USD 1.0, RUB 60.0, EUR 0.95, GBP 0.82, JPY 130.0 |
| Rates.RateTable.UpdateAllFiatRates | main.py:91-101 | the new table is the specified refresh of the old one, and the returned set is the failed currencies |
| Holdings.PortfolioManager.GetCurrentPortfolioId | main.py:59-63 | an id exactly when a portfolio is selected, and it is that portfolio's id |
| Holdings.FindAsset | main.py:258 | the first row with the (symbol, portfolio) key, or none exactly when no row has it |
| Holdings.AddedAssets | main.py:258-264 | unchanged when the key is present; otherwise the new holding appended after all old rows; the key is present afterwards |
| Holdings.UpdatedAssets | main.py:273-285 | unchanged when the key is missing; otherwise only the matching row's amount changes |
| Holdings.RemovedAssets | main.py:294-300 | unchanged when the key is missing; otherwise the same rows in order without the matching one (as multisets: old = new + that row) |
| Holdings.AddKeepsKeysUnique | main.py:258-264 | adding keeps (symbol, portfolio) keys unique |
| Holdings.UpdateKeepsKeysUnique | main.py:284 | updating keeps keys unique |
| Holdings.RemoveDeletesKey | main.py:294-300 | removing keeps keys unique, and the key is then absent |
| Holdings.HoldingsIn | main.py:196 | each holding of the portfolio exactly as often as the table holds it, and no holding of another portfolio |
| Holdings.AssetStore.HoldingsOf | main.py:196 | the store's holdings of one portfolio, each exactly as often as the table holds it, and no other |
| Holdings.AddAsset | main.py:247-266 | a bad amount is rejected first, then a missing selection; otherwise the table is the specified add, and the outcome says whether the key existed |
| Holdings.UpdateAsset | main.py:269-287 | a missing selection fails first, then a missing holding, then a bad amount; only a full success changes the table, to the specified update |
| Holdings.RemoveAsset | main.py:290-302 | a missing selection fails; otherwise the table is the specified removal, and the outcome says whether the key existed |
| Valuation.PriceUsd | main.py:218 | a quoted price is used as is; a quote without a price counts as 0 |
| Valuation.ValueInIsConvertedTotal | main.py:219-226 | summing amount·price·rate equals converting the USD total at the rate |
| Valuation.ValueUsdConcat | main.py:216-220 | the total of two lists of holdings is the sum of their totals |
| Valuation.ValueUsdOrderIndependent | main.py:196-220 | any two lists with the same holdings, each as often (the same multiset), have the same USD total, so the unordered query's row order does not matter |
| Valuation.ValueUsdRemove | main.py:216-220 | taking one holding out of a list lowers the USD total by exactly that holding's value |
| Valuation.UnpricedHoldingAddsNothing | main.py:218-226 | a holding without a price adds nothing to any total |
| Valuation.OneUnitMatchesDetails | main.py:219-226 | one unit of an asset is valued in each currency at the price its details view shows |
| Valuation.ValueStep | main.py:216-226 | one more holding grows each total by that holding's value |
| Valuation.AddToColumns | main.py:223-226 | each non-USD column grows by the value times its rate; the other entries stay |
| Valuation.RunningTotals | main.py:214-226 | after the loop, USD holds the sum of amount·price and every other currency the sum of amount·price·rate |
| Valuation.PortfolioTotals | main.py:196-226 | no totals for an empty portfolio; otherwise one total per rate-table currency: the USD sum, and the USD sum converted at each rate |
| Valuation.ViewPortfolio | main.py:192-244 | rates are refreshed first, even with no selection; no selection, an empty portfolio, or the specified totals of the selected portfolio's holdings at the refreshed rates; only the selected portfolio's quotes must be readable |
| Details.BaseAsset | main.py:342-345 | a symbol ending in USDT is its base followed by USDT; any other symbol is its own base |
| Details.BaseAssetOfPair | main.py:342-343 | the base of code+USDT is the code |
| Details.DisplayName | main.py:347 | the name-table entry for the code, or the code itself |
| Details.PricesIn | main.py:348-350 | the price in every currency of the rate table is the USD price times its rate |
| Details.ViewAssetDetails | main.py:329-361 | a missing price and an unparsable price are distinct errors; otherwise the symbol, the base's display name, the USD price and the price in every table currency |
| Details.AssetNameTable.constructor | main.py:19-26 | the name table starts with the six seed entries |
| Details.AssetNameTable.EditAssetNames | main.py:364-389 | choice 1 sets or overwrites an entry; choice 2 deletes it when present and reports whether it was; exit and unknown choices leave the table as it is |

## Left out

- The HTTP client, request signing and network failures are out of scope. The exchange is a snapshot parameter (`Ticker`), and a candle batch is a value.
- `binance_api_client.py` is not part of this model.
- Terminal menus, tables, colours, progress bars and the CSV export of an analysis are display only. So are `view_all_exchange_assets` and `view_exchange_rates`.
- The chart module is not part of this model.
- Floating point arithmetic is not modelled. Prices, amounts, rates and sums are exact reals, and the text-to-float conversion is an input: `Num`/`NotNumeric` for raw records, `Option<real>` for typed amounts, and `Price`/`BadPrice` for quotes.
- Datetime and time-zone handling of the candle timestamps are abstracted to seconds as a real (milliseconds / 1000).
- Input normalisation (`strip().upper()`) is not modelled. Symbols and codes arrive already normalised.
- The prompt loop of `select_portfolio` is interactive input. The model only holds the selected portfolio (`PortfolioManager.current`).
- Dictionary iteration order of the rate table is not modelled. The refresh and the totals loop pick currencies from a set, and their results do not depend on the order.
- Database row ids (auto-increment keys) of candles and holdings are not modelled. Rows are identified by their keys.
- The ORM classes in `models.py` are not modelled. The model follows the columns that `main.py` reads and writes.
- Valuation.PortfolioTotals: a `price` field that does not parse raises an exception in the source, which ends the view. The model requires that no holding has such a quote (`PricesReadable`) instead of modelling the crash.
- Valuation.ViewPortfolio: the same precondition applies, to the holdings of the selected portfolio only. With no selection nothing is required.
- Holdings.PortfolioManager.GetCurrentPortfolioId: the source raises `ValueError` when no portfolio is selected. The model returns `None`. The holdings operations then report `NoPortfolio` and leave the table unchanged. The valuation view reports `NoPortfolioSelected`, after it has refreshed the rate table, as the source does before it raises.
- `BadPrice` stands for a `price` string that the float conversion rejects. A `price` that is not a string at all (such as a JSON null) is not modelled: the rate lookup would skip it like a bad string, but the details view, which catches only conversion errors of strings, would crash where the model reports `InvalidPrice`.
- Klines.KlineTable.FetchAndStore: a database error at commit time is not modelled. Only decoding failures are reported, as the count of malformed entries.
