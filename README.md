# Korean stock-data endpoint: a Dafny model

This project models the data-shaping logic of the stock-data HTTP endpoint
(`api/stock_data.py`). The endpoint wraps the pykrx exchange-data library. It
answers five methods:

- a quote on the latest trading day (`getMarketData`);
- fundamentals with non-positive ratios nulled (`getFinancialData`);
- price-based indicators (`getTechnicalIndicators`);
- investor-flow sums (`getSupplyDemand`);
- a peer list chosen by market-cap similarity (`searchPeers`).

The library calls are abstract inputs. `Krx.Exchange` is a record of functions
from ticker and day to tables, plus a map of ticker names. A day is an
integer, and "i days ago" is `today - i`.

Modules:

- `Common`: `Option`, `Result`, the error objects and their message texts.
- `Krx`: the shapes of the library's tables. `CapTable` is the market-cap
  table, indexed by ticker, so no ticker labels two rows.
- `MarketData`: the seven-day lookback loop (a method) and the quote.
- `Financials`: keeps each ratio only when it is positive.
- `Technical`: the 20-bar guard, the moving averages and the current price.
- `SupplyDemand`: per-class sums over the window and over its last five rows.
- `Peers`: the band ladder, the filter, the sort, the top five, and the
  name-lookup loop (a method).
- `Handler`: `do_POST`'s routing by method name.

## Model

| member | source | states |
|---|---|---|
| `Handler.HandlePost` | api/stock_data.py:22-36 | Each of the five method names reaches its own handler, and that handler's record or error object is the reply. The reply is the "Unknown method" error for the request's name (including a missing name) exactly when the name is not one of the five. The `error` text (`Common.Message`, via `Handler.ErrorField`) is "Unknown method: " followed by the name, or "None". Each handler's failure carries its own fixed text (lines 74, 102, 132, 189, 228). |
| `Handler.ErrorField` | api/stock_data.py:36 | A reply has an `error` value exactly when it is an error object, and the value is that error's message text. |
| `MarketData.FindTradingDay` | api/stock_data.py:62-69 | The `for … else` scan returns the latest of the last seven days that has an OHLCV row. When none of them has one, it returns today. It agrees with the reference scan `LatestTradingDay`. |
| `MarketData.LatestTradingDayIsLookbackDay` | api/stock_data.py:62-69 | The reference scan (`ScanFrom` from offset 0, as `LatestTradingDay`) meets the same promise: the latest of the last seven days with data, otherwise today. |
| `MarketData.GetMarketData` | api/stock_data.py:56-88 | The handler (lookback, re-query, cap lookup, first row) computes `MarketDataOf`. |
| `MarketData.MarketDataOf` | api/stock_data.py:72-74 | The only error it returns is "No data" for the requested ticker. |
| `MarketData.MarketDataLookback` | api/stock_data.py:62-88 | The handler fails exactly when none of the last seven days has data, because the fallback to today then finds no row either. Otherwise the quote is dated on the latest such day. Its price, volume, open, high and low are that day's first row. Its market cap is the table's cap for the ticker, or 0 when the table does not list it. |
| `Krx.CapOf` | api/stock_data.py:78 | The cap is 0 for an unlisted ticker. In a table indexed by ticker, it is that ticker's row's cap. |
| `Financials.KeepPositive` | api/stock_data.py:108-113 | A value is kept exactly when it is strictly positive, and is then unchanged. |
| `Financials.FinancialData` | api/stock_data.py:101-114 | The handler fails with "No fundamental data" exactly when the ticker is absent. Otherwise each of PER, PBR, EPS, BPS, DIV and DPS is the source value when it is positive and null otherwise, so every present field is strictly positive. |
| `Financials.NormaliseIdempotent` | api/stock_data.py:108-113 | Normalisation is idempotent: feeding its output back, with nulls read as 0, gives the same record. |
| `Technical.Mean` | api/stock_data.py:137-139 | The truncated mean of a window lies between the window's least and greatest close. |
| `Technical.MovingAverage` | api/stock_data.py:137-139 | A k-day average lies within the range of the last k closes. With fewer than k closes it is the last close. |
| `Technical.TechnicalIndicators` | api/stock_data.py:131-139 | The handler fails with "Not enough data" exactly when there are fewer than 20 bars. Otherwise the current price is the last close. The 5-, 20- and 60-day averages lie within their windows' ranges, and the 60-day average is the last close when fewer than 60 bars exist. |
| `SupplyDemand.Tail` | api/stock_data.py:197 | `tail(5)` has min(5, n) rows and is a suffix of the table. |
| `SupplyDemand.NetSumAppend` | api/stock_data.py:192-200 | The per-class sums (`NetSum`) of two consecutive row blocks add up to the sums of their concatenation. |
| `SupplyDemand.SupplyDemand` | api/stock_data.py:188-213 | The handler fails with "No investor data" exactly when the table is empty. Otherwise `recent` is the per-class sum (`NetSum`) of all rows and `fiveDays` that of the last min(5, n). The period runs from today − 20 to today. |
| `SupplyDemand.FlowWindowSplit` | api/stock_data.py:192-200 | The whole-window sums are the five-row sums plus those of the older rows. With five rows or fewer, the two are equal. |
| `Peers.BandLadder` | api/stock_data.py:233-238 | `BandFor`'s tiers are [0.1, 10] above 10 trillion, [0.3, 3] above 1 trillion and [0.5, 2] otherwise, cut strictly: 10 trillion itself takes [0.3, 3] and 1 trillion takes [0.5, 2]. A larger cap never gets a narrower band, and a non-negative cap lies in its own band. |
| `Peers.Similar` | api/stock_data.py:240-243 | A row is kept exactly when its ticker is not the target's and its cap lies in the target's band. |
| `Peers.SimilarCounts` | api/stock_data.py:240-243 | Each eligible row is kept exactly as often as the table holds it, and no other row is kept. |
| `Peers.SimilarLength` | api/stock_data.py:240-243 | The selection has one row per eligible position of the table. |
| `Peers.SimilarInOrder` | api/stock_data.py:240-243 | The selection is a subsequence of the table: table order is kept. |
| `Peers.SortByCap` | api/stock_data.py:244 | The result is a permutation of the candidates, ordered by cap from largest to smallest. |
| `Peers.SortKeepsTickersUnique` | api/stock_data.py:244 | Sorting rows with unique tickers keeps the tickers unique. |
| `Peers.TopOfSorted` | api/stock_data.py:247 | The first five (`Top`) of a sorted list number min(5, n), stay sorted and keep unique tickers unique. No element left out has a larger cap than one kept. |
| `Peers.CandidatesAreTopFive` | api/stock_data.py:240-247 | `Candidates` are min(5, n) of the table's n eligible rows, largest first. Every eligible row left out has a cap no larger than any candidate's. In a table keyed by ticker, no two candidates share a ticker. |
| `Peers.CollectPeers` | api/stock_data.py:250-260 | The loop that skips failed name lookups computes `NamedPeers`. |
| `Peers.NamedPeersFilter` | api/stock_data.py:250-260 | The peers (`NamedPeers`) form a subsequence of the candidates. Each peer carries its looked-up name, and every candidate whose lookup succeeds appears. |
| `Peers.PeerSearch` | api/stock_data.py:227-228 | The search fails with "Ticker not found" exactly when the target is not in the cap table. |
| `Peers.SearchPeers` | api/stock_data.py:219-267 | The handler computes `PeerSearch`. |
| `Peers.PeerSearchProperties` | api/stock_data.py:230-265 | The report carries the target's own cap and at most five peers, in non-increasing cap order, with pairwise distinct tickers. Each peer is a table row other than the target, its cap lies in the target's band, and its name was looked up. The peers are a subsequence of the top-five candidates. |

## Left out

- HTTP plumbing is not modelled: reading the body, JSON decoding and encoding, status and headers, the CORS preflight and the `send_error` path (lines 13-54). This is I/O.
- The pykrx calls are abstract inputs (`Krx.Exchange`), and the model assumes each returns the same table every time it is asked. Exceptions the library raises (caught by the handlers' `except` into `{'error': str(e), 'trace': …}`) are not modelled. Neither are the traceback texts.
- Dates are integer day numbers: `datetime.now`, `timedelta` and `strftime` formatting are clock and format plumbing. The supply-demand `period` is the pair of day numbers, not the formatted string.
- A missing `params.ticker` (Python passes None to the handlers) is not modelled; the ticker is always a string. A missing `method` is modelled, and a method name that is not a string is not.
- Technical.TechnicalIndicators: RSI-14, the Bollinger bands and the annualised volatility (lines 141-160) are floating-point numerics with square roots and are not modelled. The moving averages are exact when each window's sum of closes is below 2^53. Then the float mean truncates to the same integer as the exact quotient. Korean share prices are far below that bound.
- Peers.InBand: the float products `target_cap * 0.1` and `target_cap * 0.3` are modelled as exact integer cross-multiplication. Float rounding of those products is not modelled.
- Peers.SortByCap: pandas' default quicksort is not stable. The model fixes one admissible order among equal caps (table order), which the source does not promise.
- Financials.FinancialData: ratio values are exact reals. NaN (for which `> 0` is false) is not modelled.
- SupplyDemand.NetSum: the column sums are unbounded integers. numpy's 64-bit wrap-around on overflow is not modelled.
- The `CapTable` type rules out a cap table whose index repeats a ticker. In the source, a repeated ticker matters only when it is looked up. If it is the requested ticker, the cap lookup yields a Series, and `get_market_data` (line 78) and `search_peers` (line 233) take their error paths. If it is a repeated candidate, `int(...)` at line 257 raises and the bare `except: continue` drops that peer. Any other repeated ticker changes nothing.
