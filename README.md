# Put-selling backtest of options-analysis, in Dafny

This project models the algorithmic core of `main.py` in the options-analysis
repository and proves properties of it. The core has two parts.

- **`analyze_ticker`** runs the backtest for one ticker. It drops the
  missing closes and marks every observation whose close is at least 10%
  below the close four observations earlier. For each such drop date it
  requests a put chain. It picks the expiration nearest to thirty days out,
  then the strike nearest to the trigger-day close, and reads the first
  contract's implied volatility. A contract above 60% counts as a trial. The
  trial is a success when the first close dated on or after the expiration
  is above the strike.
- **The drop-count report at the end of `main`** splits the requested
  tickers into available and missing ones. For every available ticker with
  at least five observations, it reports how many drop dates the ticker has.

Modules, leaves first:

- `Common` (`common.dfy`) holds `Option`, `Result`, absolute values and
  `FirstArgMin`, the "first minimal element" that Python's
  `min(..., key=...)` returns.
- `Prices` (`prices.dfy`) holds a ticker's column of the merged close table
  and `dropna()`.
- `Drawdown` (`drawdown.dfy`) is `pct_change(4) <= -0.10`: the drop dates
  and the drop count.
- `OptionChain` (`option_chain.dfy`) is `parse_key`, the
  nearest-expiration and nearest-strike selections, the first contract and
  the implied-volatility filter.
- `Outcome` (`outcome.dfy`) is the first close on or after the expiration
  and the success test.
- `Backtest` (`backtest.dfy`) is `analyze_ticker`. The loop over drop dates
  is a method. It is proved against a fold of per-date steps (`TallyOf`),
  and the lemmas state what the fold promises.
- `DropReport` (`dropreport.dfy`) is `available`, `missing` and the
  drop-count report loop. The loop is a method proved against `ReportRows`.

Conventions:

- Dates are day numbers (`int`) and prices are `real`s.
- The network request `client.get_option_chain` becomes the parameter
  `chainOn`. It maps a trigger day to the put map the provider returns, as
  a sequence of expirations in payload order. An absent `putExpDateMap` is
  the empty sequence.
- The calendar conversion inside `parse_key` (`datetime.fromisoformat`)
  becomes the parameter `dayOf`. It is applied to the key text before the
  first `':'`.
- Exceptions that `analyze_ticker` does not catch become `Err` results of
  type `Fault`:
  - `NoStrikes`: `min()` of an empty strike list (`ValueError`);
  - `NoContracts`: `[0]` of an empty contract list (`IndexError`).

  Such an exception ends the whole analysis.

Behaviour of the code worth noting:

- Ties in the expiration and strike selections go to the entry listed first
  in the payload, because `min` keeps the first minimum (main.py:129, 134).
  No other tie-break is applied.
- A missing chain is skipped only when `putExpDateMap` is empty or absent
  (main.py:121-123). A non-empty map that lacks what the selection needs
  raises, and the exception ends the analysis:
  - a nearest expiration with no strikes, because `min([])` raises
    `ValueError` (main.py:134);
  - a nearest strike with no contracts, because `[0]` raises `IndexError`
    (main.py:135).
- The five-observation minimum applies only in the drop-count report
  (main.py:217), not in `analyze_ticker`.
- The report rows come in the order of `available`, which is the input
  order (main.py:215-230). They are not sorted, and they hold drop counts
  only, with no trial or success counts.

## Model

| member | source | states |
|---|---|---|
| Common.FirstArgMin | main.py:129 | the position `min(key=...)` returns: its key is the least, and every earlier key is strictly larger (ties go to the first listed) |
| Common.FirstMinIsUnique | main.py:129 | only one position is the least key with every earlier key larger, so the selection is determined by the keys |
| Prices.DropMissingKeepsPresentCloses | main.py:104 | `dropna()` keeps exactly the present closes: an observation is in the series iff its day carries that close in the column |
| Prices.DropMissingIsChronological | main.py:104 | dropping gaps from a date-sorted column leaves a date-sorted series |
| Drawdown.DropsBelow | main.py:106-107 | among the first `n` observations, `i` is listed iff it is a drop; the list is strictly increasing and below `n` |
| Drawdown.DropIndices | main.py:106-107 | `i` is a drop date iff `i >= 4` and `s[i] / s[i-4] - 1 <= -0.10`; the dates come in series order |
| Drawdown.DropCountIsNumberOfDropDates | main.py:107 | the number of true entries in the mask `pct4 <= -0.10` equals the number of drop dates the backtest iterates |
| Drawdown.ShortSeriesHasNoDrops | main.py:106-107 | the first four observations have no defined change, so a series of at most four observations has no drop date |
| Drawdown.DropCountBound | main.py:106-107 | a series of `n > 4` observations has at most `n - 4` drop dates, and a shorter one has none |
| Drawdown.BreachesIffFallToNinetyPercent | main.py:107 | with a positive earlier close, the threshold is a fall to at most 90% of it |
| Drawdown.FiveClosesScenario | main.py:104-107 | closes 100, 95, 90, 85, 88 have exactly one drop date, the fifth observation |
| OptionChain.DatePart | main.py:127 | `k.split(":")[0]` is a prefix of the key without `':'`, and it ends where the key's first `':'` is |
| OptionChain.NearestExpiration | main.py:128-129 | the chosen expiration has the least day distance to the target, and every expiration listed before it is farther |
| OptionChain.NearestStrike | main.py:133-134 | the chosen strike has the least distance to the trigger-day close, and every strike listed before it is farther |
| OptionChain.NearestIsUnique | main.py:128-134 | at most one expiration, and within it at most one strike, meets those conditions |
| OptionChain.MatchContract | main.py:121-134 | no selection iff the put map is empty; otherwise the nearest expiration, and within it the nearest strike when it lists any |
| OptionChain.FirstContract | main.py:135 | the contract read is the first listed under the strike, and the read fails iff the list is empty |
| OptionChain.NearerExpirationWins | main.py:111-129 | with a target of 30 days, a 28-day expiration beats a 35-day one listed before it |
| OptionChain.TiedExpirationsFirstListedWins | main.py:128-129 | 25- and 35-day expirations tie at five days, and whichever is listed first is chosen |
| Outcome.FirstOnOrAfter | main.py:145-148 | the position found is dated on or after the day and every earlier position is dated before it; none is found only when every date is earlier |
| Outcome.SucceedsIff | main.py:145-150 | a trial succeeds iff some close is dated on or after the expiration and the first such close is strictly above the strike |
| Outcome.FirstOnOrAfterIsEarliestDate | main.py:145-148 | on a date-sorted series, the close found has the earliest date on or after the expiration |
| Backtest.TriggerStepByMatch | main.py:121-150 | one drop date's effect follows the matcher's selection: an empty map is skipped, an expiration without strikes or a strike without contracts raises, a low volatility is skipped, and anything else is a trial whose success is the outcome test |
| Backtest.StepAt | main.py:109 | the k-th step of the fold is the effect of the k-th drop date |
| Backtest.AnalyzeTicker | main.py:95-152 | `analyze_ticker` returns `Backtest(closes)`, with `successes <= trials <= number of drop dates` |
| Backtest.RunTriggers | main.py:103-152 | the loop over the drop dates returns the fold of their steps, stopping at the first exception, with `successes <= trials <= number of drop dates` |
| Backtest.CountStep | main.py:138-150 | a skipped date leaves the counters, a trial adds one to `trials` and, when won, one to `successes`, and an exception ends the loop |
| Backtest.EvaluateDropDate | main.py:109-150 | the loop body for the k-th drop date yields the k-th step of the fold |
| Backtest.EvaluateTrigger | main.py:110-150 | the source's decisions, in order, yield exactly the step `TriggerStep` specifies |
| Backtest.ErrPersists | main.py:109-152 | once an exception is raised, no later drop date changes the result |
| Backtest.FoldBounds | main.py:141-150 | each step adds at most one trial, and a success only with a trial: `successes <= trials <= steps taken` |
| Backtest.FoldOkIff | main.py:109-152 | the fold ends without an exception iff no step raises one |
| Backtest.AppendStep | main.py:109 | one more drop date applies its own step to the tally of the earlier ones |
| Backtest.TallyOkIff | main.py:129-135 | the analysis finishes without an exception iff no drop date's selection raises |
| Backtest.TallyBounds | main.py:103-152 | `0 <= successes <= trials <= number of drop dates` |
| Backtest.EmptyChainLeavesTally | main.py:121-123 | a trigger whose put map is empty changes neither counter |
| Backtest.LowVolatilityLeavesTally | main.py:137-139 | a trigger whose contract has no volatility, or one of at most 0.60, changes neither counter |
| Backtest.QualifyingTriggerCountsOnce | main.py:141-150 | a trigger with volatility above 0.60 adds exactly one trial, and one success exactly when the outcome test succeeds |
| Backtest.BacktestBounds | main.py:103-152 | the backtest never counts more trials than the report's drop count for the series, nor more successes than trials |
| DropReport.Available | main.py:188 | a ticker is available iff it was requested and has a column; each one keeps its number of occurrences |
| DropReport.AvailableKeepsOrder | main.py:188 | the available tickers keep their input order |
| DropReport.MissingIsTheRest | main.py:189 | `missing` is exactly the requested tickers without a column; no ticker is both missing and available, and every requested ticker is one of the two |
| DropReport.DropSignalReport | main.py:187-230 | the report returns `available`, `missing` and the rows `ReportRows` specifies |
| DropReport.ReportRowIff | main.py:215-230 | a row `(t, c)` is reported iff `t` is available, its series keeps at least five observations, and `c` is its number of drop dates |
| DropReport.ReportRowsBounded | main.py:215-230 | there are at most as many rows as available tickers; each row's ticker is available and its count is at most its observations minus four |

## Left out

- `get_client`: OAuth and the token file. This is I/O and library glue.
- `fetch_daily_closes` and `fetch_all_closes`. They are network requests,
  a thread pool, epoch conversion and the outer join. The merged table is
  an input. Each column is a sequence of `Cell`s, and `CellsChronological`
  states that it is sorted by date.
- The `client.get_option_chain` request. It is the parameter `chainOn`,
  keyed by the trigger day. The ticker name and the date window are fixed
  for a given call.
- `datetime.fromisoformat`. It is the parameter `dayOf`. Only the
  `split(":")[0]` around it is modelled.
- The `str(float(k))` round trip from a strike back to its key. It can
  raise `KeyError` when the key text differs from the float's text. Strikes
  are modelled as values with their contracts attached.
- IEEE floating point. Closes, strikes and volatilities are reals, so
  there is no rounding and no NaN. A zero earlier close is treated as
  division by zero: `-inf` marks a drop, `+inf` and NaN do not.
  Exact reals differ from floats at the threshold. A fall from 100 to 90 is
  a drop in the model, so `BreachesIffFallToNinetyPercent`'s "at most 90%"
  is exact only over the reals. In floating point, `90/100 - 1` comes out
  just above `-0.10`, and main.py:107 does not mark that fall.
- A volatility field that is present but not a number. It is `Option<real>`.
- `print`, `tqdm`, building the results `DataFrame` and the CSV file.
  This includes the `set_index("ticker")` failure when no ticker is
  reported. The skipped tickers are not returned either. `ReportRowIff`
  states which tickers get no row.
- A ticker requested twice. The table is a map with one column per
  ticker, so `DropSignalReport` reports such a ticker twice. In the source,
  the concatenated frame would hold two columns under that name, and
  `int(...)` at main.py:225 would raise. The hard-coded lists repeat no
  ticker.
- The hard-coded ticker lists and the commented-out backtest report.
- `test.py`: yfinance downloads.
- Prices.DropMissing: its own contract states only the length bound.
  Its meaning is proved in `DropMissingKeepsPresentCloses` and
  `DropMissingIsChronological`.
