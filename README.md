# thetradingengine in Dafny

A model of the momentum backtester `tradecompanion`, with proofs. The model covers three parts:

- **The position ledger and risk sizer** (`trading_packages/portfolio.py`).
  - `Portfolio.risk` turns an entry price and an ATR into a stop, a target and a round share count.
  - A `Position` fixes its cost basis when created, and `close_position` freezes its close and P&L.
- **The indicators** (`trading_packages/equities_universe.py`): the trailing rolling maximum (`rolling_means`), the average true range (`atr`) and the entry signal (`signal`).
- **The daily loop of `tradecompanion.py`** (lines 55-112).
  - Phase 1: when the cash ratio allows, it ranks the stocks that signalled on the previous day and were never traded, largest previous-day volume first. It then opens them while the cash check passes.
  - Phase 2: it closes positions whose stop or target was hit and marks the others at the close.
  - Finally it writes the day's total value and its row of the equity table.

Modules:

- `Wrappers`: an `Option` type. A pandas NaN or a swallowed exception becomes `None`.
- `Indicators`: bars, stocks, Python's `iloc` slicing (negative and clamped bounds), `RollingMeans`, `Atr`, `Signal`, and the lemmas that characterise them.
- `Ledger`:
  - the fee `4.95 / 1.3` as an exact rational;
  - Python's half-to-even `round`, and `Risk`;
  - position records as values (`Opened`, `AfterClose`);
  - the classes `Portfolio` and `Position`, whose fields are updated in place.
- `Backtest`: one trading day as a function of the state before it (`Book`).
  - `PhaseOne`: candidates, ranking, quotes, and the scan with its early stop.
  - `SettleDay`: phase 2 and the equity row.
  - `DayStep`, and `RunFrom` for the whole loop.
  - Lemmas about these functions.
- `Engine`: the class `TradingEngine`. It holds:
  - `my_portfolio`;
  - `my_log`, as the sequence of `Position` objects in insertion order (keyed by ticker);
  - the equity table, as a sequence of rows.

  Its methods run the loops of the script: collecting candidates, the buying scan with its `break`, settling the log, recording the row, a day (`Step`) and the whole run (`Run`). Each method is proved to leave exactly the state that the matching `Backtest` function computes.

How the source's behaviour is modelled:

- **Dates** are positions in one shared trading calendar. Every stock has one bar per calendar day.
- **Sizing** uses the previous day's close and ATR, under the total value of the previous day. That total is only refreshed at line 109.
- **The cash check** (line 77) subtracts shares times the previous close and ignores the fee. The debit (line 84) is the new position's `total_cost`: shares at today's open plus the fee.
- **A close** credits cash with `realized_pnl` (lines 102 and 106).
- **The ATR follows pandas' label alignment.** `high - prev_close` subtracts by date label, so each row pairs a bar's high and low with the same bar's close. After `dropna` the surviving rows are bars `p - window + 1 .. p - 1`. `Atr` computes this from the slice bounds, and `AtrWindow` proves that it is the mean over those `window - 1` bars.
- **Configuration:** the script's constants are risk per trade 0.01, risk ratio 5, cash ratio 0.01, stop margin 3, signal window 40, ATR window 20, volume margin 1.5 and initial cash 4000.
- **Where the script would raise**, a day does not complete. This happens in two cases:
  - the total value is zero, because line 58 divides by it;
  - phase 1 reaches a candidate that `risk` cannot size: it has no ATR, or `stop_margin * atr` is zero, and `risk` divides by it at line 27 of `portfolio.py`.
    - Phase 1 only sizes candidates when the guard at line 59 passes.
    - It sizes them in rank order, up to and including the first one that fails the cash check (the `break` at line 86).
    - A candidate after that one is never sized, so it can make no day fail. Neither can any candidate on a day that fails the guard.

  `PhaseOne`, `DayStep` and `Step` give `None` or `raised` for the second case. They only require a non-zero total (`DayPre`). `Run` stops on the first such day and reports that it did not complete.

## Where the code departs from what it appears to do

The model follows the code in each of these places.

- **Closing credits `realized_pnl`, not the proceeds `total_return`.**
  - The cost basis is taken twice: once by the debit at line 84, and once inside `realized_pnl`. `Ledger.LifecycleCash` states the cash movement of a whole lifecycle.
  - The cash therefore does not balance. The debits plus the credits of a lifecycle are not its `realized_pnl`.
- **A failed cash check ends the scan.** The comment at lines 70-71 says a candidate without enough cash is skipped. The code breaks at line 86, so no later candidate is opened that day.
- **No gap check** is made on the open price. Every candidate that passes the cash check is opened at today's open, wherever that lies against the stop and the target.
- **The ATR** averages `window - 1` rows ending the day before, each using the same day's close. It does not average `window` rows against the previous close.
- **A closed position** keeps the `market_value` set when it was opened; nothing recomputes it.

## Model

| member | source | states |
|---|---|---|
| Ledger.Portfolio.constructor | tradecompanion/trading_packages/portfolio.py:13-20 | a new portfolio keeps its name, date, cash and market value, and its total value is market value plus cash |
| Ledger.RoundHalfEven | tradecompanion/trading_packages/portfolio.py:27 | Python's `round` on an exact value; it has no contract of its own, and `RoundHalfEvenNearest` states what it returns |
| Ledger.RoundHalfEvenNearest | tradecompanion/trading_packages/portfolio.py:27 | Python's `round` lands within one half of its argument, and on a tie it picks the even integer |
| Ledger.Risk | tradecompanion/trading_packages/portfolio.py:22-29 | `Portfolio.risk` as a function of the total value, defined only where `stop_margin * atr` is not zero (otherwise the division raises); it has no contract of its own, and `RiskSizing` states what it returns |
| Ledger.RiskSizing | tradecompanion/trading_packages/portfolio.py:22-29 | the stop is `stop_margin * atr` below the price; the target minus the price is `risk_ratio` times the price minus the stop; with positive margin, ATR and ratio, stop < price < target; the shares times the risk per share is within half a risk per share of `total_value * risk_per_trade`, with ties going to an even share count |
| Ledger.Opened | tradecompanion/trading_packages/portfolio.py:52-59 | a position as its constructor and `__post_init__` leave it; it has no contract of its own, and `OpenedFresh` states what it holds |
| Ledger.OpenedFresh | tradecompanion/trading_packages/portfolio.py:52-59 | a new position is Open with its cost basis (`total_cost` is shares at the open price plus the fee, `market_value` is shares at the open price), a zero close price, zero return and zero P&L |
| Ledger.Position.constructor | tradecompanion/trading_packages/portfolio.py:41-59 | the new object's state is that fresh record: cost basis, Open, nothing realised |
| Ledger.AfterClose | tradecompanion/trading_packages/portfolio.py:61-66 | a close sets status, date and price, and `total_return` = price times shares minus the fee, with `realized_pnl` = `total_return - total_cost`, which is (price - open price) times shares minus two fees for a position that holds its cost basis; every other field is unchanged |
| Ledger.Position.ClosePosition | tradecompanion/trading_packages/portfolio.py:61-66 | the object's new state is `AfterClose` of its old state |
| Ledger.CloseIdempotent | tradecompanion/trading_packages/portfolio.py:61-66 | with no re-close guard, closing again with the same price and date changes nothing more |
| Ledger.LifecycleCash | tradecompanion/tradecompanion.py:84-106 | the cash moved by one lifecycle (debit `total_cost`, credit `realized_pnl`) is the price gain minus three fees minus the cost at the open once more |
| Indicators.PyIndex | tradecompanion/trading_packages/equities_universe.py:38-40 | an `iloc` slice bound always lands inside the sequence, and a bound already inside it is kept |
| Indicators.MaxOf | tradecompanion/trading_packages/equities_universe.py:55-56 | the rolling maximum is one of the window's values and at least each of them |
| Indicators.RollingMeans | tradecompanion/trading_packages/equities_universe.py:51-58 | `rolling_means` for one date; it has no contract of its own, and `RollingMeansWindow` states what it returns |
| Indicators.RollingMeansWindow | tradecompanion/trading_packages/equities_universe.py:51-58 | for every position the signal asks about, the rolling maximum of highs or volumes exists exactly when the window is at least one and all `window` bars ending at that position exist, and it is then their maximum |
| Indicators.TrueRange | tradecompanion/trading_packages/equities_universe.py:42-46 | a true-range row is never negative and is at least high minus low |
| Indicators.SumTrueRange | tradecompanion/trading_packages/equities_universe.py:46-48 | the summed true ranges are never negative and are at least the summed high-low ranges |
| Indicators.Atr | tradecompanion/trading_packages/equities_universe.py:35-49 | `atr` for one date, from the slice bounds; it has no contract of its own, and `AtrWindow`, `AtrNonNegative` and `AtrDependsOnlyOnEarlierBars` state what it returns |
| Indicators.AtrWindow | tradecompanion/trading_packages/equities_universe.py:35-49 | with `window` earlier bars, the ATR is the mean true range of bars `p - window + 1 .. p - 1` (the bar at p is dropped by the label alignment); a window of one or less leaves no row and fails |
| Indicators.AtrNonNegative | tradecompanion/trading_packages/equities_universe.py:42-48 | with enough history the ATR exists, is never negative, and is at least the mean high-low range of its rows |
| Indicators.AtrDependsOnlyOnEarlierBars | tradecompanion/trading_packages/equities_universe.py:35-49 | two series that agree on bars `p - window + 1 .. p - 1` have the same ATR at p: neither the bar at p nor any later bar matters |
| Indicators.Signal | tradecompanion/trading_packages/equities_universe.py:60-71 | a true signal is only given for a date in the series; every failure is `false` |
| Indicators.SignalWindow | tradecompanion/trading_packages/equities_universe.py:60-71 | the signal holds exactly when the `window` bars before d exist, d's high is at least 0.99 times their highest high, and d's volume exceeds 0.99 times the volume margin times their highest volume; d itself is not in the window |
| Indicators.SignalNoLookAhead | tradecompanion/trading_packages/equities_universe.py:62-67 | cutting the series after d does not change the signal on d |
| Indicators.SignalGivesAtrHistory | tradecompanion/trading_packages/equities_universe.py:60-71 | a signal over a window of w1 days leaves enough history for the ATR over any window from 2 to w1 |
| Backtest.Candidates | tradecompanion/tradecompanion.py:60-65 | the candidate list of phase 1; it has no contract of its own, and `CandidatesMembers`, `CandidatesDistinct` and `CandidatesExtend` state what it holds |
| Backtest.CandidatesMembers | tradecompanion/tradecompanion.py:60-65 | a candidate is exactly a universe ticker that signalled on the previous day and was never logged, paired with its volume that day |
| Backtest.CandidatesDistinct | tradecompanion/tradecompanion.py:60-65 | a universe without repeated tickers gives candidates without repeated tickers |
| Backtest.CandidatesExtend | tradecompanion/tradecompanion.py:62-65 | one more stock of the universe appends its candidate, if any, at the end, so the list is in universe order |
| Backtest.Ranked | tradecompanion/tradecompanion.py:69 | the ranking has as many entries as the candidates; `RankedSorted` states the rest |
| Backtest.RankedPermutes | tradecompanion/tradecompanion.py:69 | the ranking is a permutation of the candidates |
| Backtest.RankedNonIncreasing | tradecompanion/tradecompanion.py:69 | the ranking is ordered by volume, largest first |
| Backtest.RankedDistinct | tradecompanion/tradecompanion.py:69 | ranking distinct tickers keeps them distinct |
| Backtest.RankedSorted | tradecompanion/tradecompanion.py:69 | the ranking is a sorted permutation of the candidates, keeps tickers distinct, and contains only candidates |
| Backtest.RankedListed | tradecompanion/tradecompanion.py:60-69 | the ranked candidates of day t are distinct universe tickers that signalled on day t - 1 and were never logged, each with a bar on day t |
| Backtest.QuoteFor | tradecompanion/tradecompanion.py:73-83 | a candidate gets a quote exactly when `risk` can size it (its ATR on the previous day exists and `stop_margin * atr` is not zero); the quote opens an Open position for that ticker, dated today |
| Backtest.QuoteCosts | tradecompanion/tradecompanion.py:73-84 | the cash check subtracts the shares at the previous close and no fee, while the debit is the shares at today's open plus the fee, so the two differ by shares times (open - previous close) plus the fee; the stop is `stop_margin * atr` below the previous close, the target `risk_ratio` times that distance above it, and with a positive ATR the previous close lies strictly between them |
| Backtest.QuotesAt | tradecompanion/tradecompanion.py:72-83 | the j-th quote is the j-th ranked candidate's |
| Backtest.AboveRatio | tradecompanion/tradecompanion.py:77-78 | the test `amount / total > cash_ratio`, used for the guard at line 58 and for the cash check at lines 77-78, is `Above(amount, total)` for every non-zero total, positive or negative |
| Backtest.Scan | tradecompanion/tradecompanion.py:72-86 | the scan opens at most one position per ranked candidate |
| Backtest.ScanCash | tradecompanion/tradecompanion.py:84 | the cash a scan leaves is its starting cash minus the `total_cost` of the positions it opened |
| Backtest.ScanFrom | tradecompanion/tradecompanion.py:72-86 | from quote k: a candidate that cannot be sized raises, one that fails the check ends the walk with nothing more opened, and an accepted one is opened, debited, and the walk goes on from k + 1 |
| Backtest.ScanWalk | tradecompanion/tradecompanion.py:72-86 | the same step seen from the whole scan, with the positions opened before quote k |
| Backtest.ScanPositions | tradecompanion/tradecompanion.py:79-84 | the positions opened are the quoted ones, in rank order |
| Backtest.ScanAccepted | tradecompanion/tradecompanion.py:77-78 | each opened position passed the cash check with the cash left after those before it |
| Backtest.ScanStopsAtFirstFailure | tradecompanion/tradecompanion.py:85-86 | a scan that stops early stops at a quote that can be sized but fails the cash check with the cash left, so no later candidate opens |
| Backtest.ScanRaises | tradecompanion/tradecompanion.py:72-86 | the scan raises exactly when the walk reaches a candidate that cannot be sized, that is, one whose predecessors were all sized and opened; a candidate after the `break` is never looked at |
| Backtest.ScanTickers | tradecompanion/tradecompanion.py:79-83 | the j-th position opened is an Open position, dated today, for the j-th ranked candidate |
| Backtest.PhaseOne | tradecompanion/tradecompanion.py:56-87 | phase 1 leaves the cash minus the cost of what it opened, and on a day whose cash ratio is at most `cash_ratio` it opens nothing and cannot raise |
| Backtest.PhaseOneScan | tradecompanion/tradecompanion.py:58-86 | past the cash-ratio guard, phase 1 is the scan of the ranked candidates' quotes under the previous total value |
| Backtest.PhaseOneOpens | tradecompanion/tradecompanion.py:56-87 | phase 1 opens only Open positions dated today, for universe tickers that signalled on the previous day and were never logged, each ticker at most once |
| Backtest.CashGuard | tradecompanion/tradecompanion.py:58-59 | a day whose opening cash ratio is at most `cash_ratio` opens nothing, cannot raise, and is phase 2 on the book as it stands |
| Backtest.SettleOne | tradecompanion/tradecompanion.py:98-108 | phase 2 for one position; it has no contract of its own, and `SettleOutcome` states what it does |
| Backtest.SettleOutcome | tradecompanion/tradecompanion.py:98-108 | an Open position gets exactly one outcome: closed at the stop if the stop is above the low; else closed at the target if the target is below the high, crediting `realized_pnl` either way; else it stays open and is marked at close times shares; a closed position is left alone and adds nothing |
| Backtest.SettledLog | tradecompanion/tradecompanion.py:94-106 | phase 2 keeps every entry's ticker, shares and cost; a closed entry is unchanged; an entry still open was open with its stop at most the low and its target at least the high; an entry that closes today closes at its stop if the low went below it and otherwise at its target, dated today |
| Backtest.SumsStep | tradecompanion/tradecompanion.py:94-108 | settling one more entry adds its credit to the cash and its mark to the market value |
| Backtest.MarketIsOpenValue | tradecompanion/tradecompanion.py:89-108 | after phase 2 the market value is the close value of exactly the positions that are still Open |
| Backtest.SettleDay | tradecompanion/tradecompanion.py:89-112 | phase 2 and the day's row on a book; it has no contract of its own, and `PhaseTwoTotals` and `PhaseTwoLog` state what it leaves |
| Backtest.PhaseTwoTotals | tradecompanion/tradecompanion.py:89-112 | after phase 2 the market value is the close value of the open positions, the total is cash plus market, and one row holding these three values is appended |
| Backtest.PhaseTwoLog | tradecompanion/tradecompanion.py:94-106 | phase 2 keeps every entry's ticker and never touches a closed position |
| Backtest.DayStep | tradecompanion/tradecompanion.py:55-112 | a day keeps the log's tickers known, only grows the log, and appends one row whose total is cash plus market while keeping the earlier rows |
| Backtest.DayStepParts | tradecompanion/tradecompanion.py:55-112 | a day raises exactly when its phase 1 raises, and otherwise is phase 2 applied to the book phase 1 leaves |
| Backtest.DayOpened | tradecompanion/tradecompanion.py:55-112 | phase 1 raising, or leaving the book `mid`, decides the day: the day raises exactly when phase 1 does, and is otherwise `SettleDay` of `mid` |
| Backtest.DayStepLog | tradecompanion/tradecompanion.py:55-112 | a day keeps the existing entries' tickers, leaves closed positions alone, and keeps one log entry per ticker |
| Backtest.DayStepTotals | tradecompanion/tradecompanion.py:89-112 | at the end of a day the market value is the close value of the open positions, the total is cash plus market, and the new row records exactly these values |
| Backtest.RunFrom | tradecompanion/tradecompanion.py:55-112 | the daily loop; it has no contract of its own, and `RunStops` and `RunCurve` state what it gives |
| Backtest.RunStops | tradecompanion/tradecompanion.py:58-86 | a day with a zero total value, or one whose phase 1 reaches a candidate that cannot be sized, ends the run without a result |
| Backtest.RunCurve | tradecompanion/tradecompanion.py:55-112 | a completed run from day t appends exactly one row per remaining day, each with total = cash + market. It leaves the earlier rows alone and keeps one log entry per ticker |
| Engine.TradingEngine.LoggedTickers | tradecompanion/tradecompanion.py:63 | `my_log.keys()` lists the tickers of the logged records in insertion order, and every logged ticker names a stock exactly when the log of records is known |
| Engine.TradingEngine.constructor | tradecompanion/tradecompanion.py:33-47 | the run starts from the `Momo` portfolio with 4000 in cash and nothing in the market, with an empty log and an empty table |
| Engine.TradingEngine.CollectCandidates | tradecompanion/tradecompanion.py:60-65 | the loop over the universe collects exactly the candidates of the previous day, in universe order |
| Engine.TradingEngine.SizeUp | tradecompanion/tradecompanion.py:73-78 | the k-th candidate is sized exactly when `risk` can size it, and then from the previous close and ATR under the previous total value. The check accepts exactly when the cash left, minus shares at the previous close, stays above `cash_ratio` of that total |
| Engine.TradingEngine.OpenOne | tradecompanion/tradecompanion.py:79-84 | the new position is the quoted one, opened at today's open, and the cash loses exactly its `total_cost` |
| Engine.TradingEngine.BuyOne | tradecompanion/tradecompanion.py:73-86 | one pass of the loop: `raised` when the candidate cannot be sized and then the scan raises; no position when it fails the check and then the scan ends with what was opened; otherwise a fresh position, the quoted one, with the scan going on from the next candidate |
| Engine.TradingEngine.Buy | tradecompanion/tradecompanion.py:72-86 | the loop with its `break` raises exactly when the scan does; otherwise it creates fresh positions whose records are the scan's, and leaves the cash the scan leaves |
| Engine.TradingEngine.AddToLog | tradecompanion/tradecompanion.py:79-84 | the new positions join the log after the existing ones, and the log stays one position per known ticker |
| Engine.TradingEngine.OpenPhase | tradecompanion/tradecompanion.py:72-86 | it raises exactly when the scan does; otherwise the new state has the scan's positions appended to the log and the scan's cash, and the log stays one position per known ticker |
| Engine.TradingEngine.OpenDay | tradecompanion/tradecompanion.py:60-87 | past the cash-ratio guard, it raises exactly when phase 1 does; otherwise the new state is the old one with phase 1's positions appended and phase 1's cash |
| Engine.TradingEngine.OpenStep | tradecompanion/tradecompanion.py:56-87 | it raises exactly when `PhaseOne` does; otherwise the new state is the old one after `PhaseOne`; the old positions are kept and the new ones are fresh objects |
| Engine.TradingEngine.BeginDay | tradecompanion/tradecompanion.py:56-87 | it raises exactly when `DayStep` does; otherwise it leaves the state whose phase 2 is `DayStep` of the old one |
| Engine.TradingEngine.Settle | tradecompanion/tradecompanion.py:95-108 | one position's new state is its settled record, and its credit and mark are added to cash and market value |
| Engine.TradingEngine.SettleAll | tradecompanion/tradecompanion.py:94-108 | after the loop over the log, each object holds its settled record, and the cash and market value have gained the summed credits and marks |
| Engine.TradingEngine.SettlePhase | tradecompanion/tradecompanion.py:89-108 | after the reset at line 89 and the loop, the log's records are the settled ones, the cash has the credits, and the market value is the marks |
| Engine.TradingEngine.RecordDay | tradecompanion/tradecompanion.py:109-112 | the total becomes market plus cash, and a row with the three values is appended |
| Engine.TradingEngine.CloseStep | tradecompanion/tradecompanion.py:89-112 | the new state is `SettleDay` of the old one |
| Engine.TradingEngine.Step | tradecompanion/tradecompanion.py:55-112 | it raises exactly when `DayStep` does; otherwise the new state is `DayStep` of the old one; the log keeps its positions and gains only fresh ones |
| Engine.TradingEngine.RunDay | tradecompanion/tradecompanion.py:55-112 | a day that would raise ends the run without a result; otherwise the rest of the run goes on from the state the day leaves |
| Engine.TradingEngine.Run | tradecompanion/tradecompanion.py:55-112 | the loop completes exactly when `RunFrom` has a result, and then leaves exactly that state |

## Left out

- Market data I/O: `from_yahoo` and `Stock.__post_init__` fetch bars over the network; bars are an input here.
- Plotting and printing (lines 114-116 of `tradecompanion.py`).
- The calendar plumbing.
  - `date.today()`, `get_loc` and the calendar taken from the first stock are not modelled. Dates are positions in one shared calendar on which every stock has a bar.
  - The loop starts at the trading start date's position, which must be at least 1. With position 0, `date_array_full[i + ind - 1]` would wrap around to the last date.
- The DataFrames.
  - The `opportunities` frame is a sequence of candidates.
  - The `trading_engine` table is pre-filled with the starting values in the script. Here it is a sequence that gains one row per day. Each row holds what the script writes into that day's line.
  - `market_val` (line 93) is never used and is not modelled.
- `Portfolio.cagr` and `Portfolio.beta` are empty stubs.
- Floating point: prices are exact rationals. `round` is modelled as Python's half-to-even rounding on exact values, and NaN and raised exceptions become `None` or `false`.
- Ranked: pandas' default quicksort leaves the order of equal volumes unspecified. The model ranks by a stable insertion sort, so ties keep universe order. Its proved properties (a permutation, sorted by volume) hold for any sort.
- Engine.TradingEngine.Step: requires a non-zero total value (`DayPre`), because line 58 divides by it. `RunDay` checks for a zero total before calling it. It does not require a positive total value: only zero makes line 58 raise.
- Engine.TradingEngine.OpenPhase: after a raise, the state is not modelled. The script has already added the positions it opened before the unsizable candidate to `my_log` and debited their cost. The method promises only `Valid()` and an unchanged log. The script stops at the exception, so nothing later reads that state.
- Engine.TradingEngine.Run: models the script's exceptions as an early stop, not as an exception.
- `Risk` reads only the portfolio's total value. It is a function of that value, so it cannot change the portfolio.
