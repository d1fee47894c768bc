# WatchDog indicator and alert logic, in Dafny

WatchDog runs four independent market monitors. Each one polls a data provider, computes one indicator and posts a Feishu message when a threshold is crossed:

- the TD-Sequential monitor counts how many consecutive bars closed above (or below) the close four bars earlier, and alerts on a count of 9 or 13;
- the volume monitor divides the last bar's volume by the previous bar's `n`-bar rolling mean of volume, and alerts when the ratio reaches `x`;
- the RSI monitor feeds the closes to an RSI routine with period 6, and alerts on overbought (`>= up`) and oversold (`<= down`);
- the Cetus monitor picks the reward-paying pool with the highest display APR, and notifies when that APR is above `min_apr`.

This project models that logic as pure Dafny functions over immutable sequences, with imperative versions of the three column computations (`CalTdSequential`, `CalVolMa`, `SelectMax`) proved equal to them. Modules follow the source files:

- `Wrappers`: `Option`.
- `Numeric`: a float64 value with NaN and infinities (`Double`), which the volume ratio and RSI comparisons need.
- `Kline`: kline rows and bars.
- `Notifier`: the `send_feishu` guard.
- `SelfCheck`: the outcome of startup validation.
- `TdMonitor`, `VolMonitor`, `RsiMonitor`, `CetusMonitor`: one module per monitor.

Prices, volumes and APRs are exact reals. A fetch result is `Option<seq<Row>>`, where `None` stands for a failed request. An alert is a datatype value that stands for the formatted message the monitor would send.

Some of the source's behaviour is easy to misread:

- `handle_data` returns `(None, None)` only for missing data or an empty pool list. When pools exist but none is selected, it returns the seed `('', 0)`, and `job` then rejects that as a missing result.
- The self-checks reject `x <= 1` (volume) and `n <= 1` (RSI), not just non-positive values. The volume monitor never checks its window `n`.
- The RSI monitor does not skip short windows. The RSI routine returns NaN for them, and NaN passes neither threshold.
- In `job`, the `else` branch belongs to the body-code check. A non-200 HTTP status therefore ends the run silently, and a non-200 body code is logged as a network error.

## Model

| member | source | states |
|---|---|---|
| `Numeric.Div` | monit_vol.py:96 | float division of a volume by a mean cell: NaN stays NaN, a zero mean gives +inf, -inf or NaN depending on the sign of the volume, and a non-zero mean gives the real quotient |
| `Numeric.BothThresholds` | monit_rsi.py:96-104 | a value passing both `>= hi` and `<= lo` is finite and lies between the two thresholds |
| `Kline.ToBars` | monit_td9.py:58-67 | the bar list has the same length and order as the kline rows, and bar i's six fields are the first six fields of row i |
| `Kline.ClosesAreFieldFour` | monit_rsi.py:92 | the close column is field 4 of every row, in order |
| `Kline.VolumesAreFieldFive` | monit_vol.py:73-82 | the volume column is field 5 of every row, in order |
| `Notifier.Send` | monit_vol.py:45-57 | nothing is posted iff the destination or the message is empty; otherwise one post carries the unchanged message to the configured destination |
| `Notifier.Dispatch` | monit_td9.py:31-43 | a run of notifier calls posts at most one message per call, nothing at all without a destination, and never posts an empty message |
| `Notifier.DispatchKeepsEveryMessage` | monit_rsi.py:48-60 | with a destination and non-empty messages, every message is posted in call order, with no de-duplication |
| `TdMonitor.ZeroBeforeFourthBar` | monit_td9.py:73-76 | both counters are 0 at every index below 4 |
| `TdMonitor.CountNonNegative` | monit_td9.py:78-82 | both counters are always non-negative, so the `else 1` branch of the recurrence is unreachable |
| `TdMonitor.CountStep` | monit_td9.py:77-84 | from index 4, a counter is the previous count plus one while the close beats the close four bars earlier in its direction, and 0 otherwise |
| `TdMonitor.NeverBothPositive` | monit_td9.py:77-84 | up and down are never both positive at one bar, and both are 0 when the close equals the close four bars earlier |
| `TdMonitor.CountBound` | monit_td9.py:76-84 | from index 4, each counter lies between 0 and i - 3 |
| `TdMonitor.CountIsRunLength` | monit_td9.py:76-84 | the counter at i is the length of the run of consecutive beating bars ending at i, and the bar just before that run does not beat its reference |
| `TdMonitor.RunLengthIsCount` | monit_td9.py:76-84 | conversely, any run length with those two properties equals the counter |
| `TdMonitor.RisingCloses` | monit_td9.py:76-84 | with strictly increasing closes, up at i is exactly i - 3 and down is 0 |
| `TdMonitor.RisingWindowReachesNine` | monit_td9.py:81-84 | thirteen rising closes give up = 9 at index 12, the first alert boundary |
| `TdMonitor.CalTdSequential` | monit_td9.py:70-86 | the imperative column fill returns the closes unchanged and down/up columns equal to the counter recurrence at every index |
| `TdMonitor.TdRule` | monit_td9.py:102-110 | a sell alert is sent iff the last up count is 9 or 13 and side is all or up; a buy alert is sent iff the last down count is 9 or 13 and side is all or down; the checks are independent, each alert is sent at most once, and the up check comes first |
| `TdMonitor.HandleSymbol` | monit_td9.py:89-110 | a missing or empty kline result gives no alert; otherwise the alerts are the rule above applied to the counters at the last bar of the fetched closes |
| `TdMonitor.AlertNeedsThirteenBars` | monit_td9.py:97-110 | any TD alert needs a window of at least 13 bars, and at most one alert is sent per symbol and poll |
| `VolMonitor.MeanWithinWindow` | monit_vol.py:94 | the rolling mean is defined exactly from index n - 1 on, and then lies within the range of the n volumes it averages |
| `VolMonitor.RatioUsesPreviousWindow` | monit_vol.py:96 | the ratio at i is NaN for i < n; from i = n on it is the volume at i divided by the mean of the n volumes before i, which does not include bar i |
| `VolMonitor.CalVolMa` | monit_vol.py:85-97 | the imperative prefix-sum computation produces the rolling-mean and ratio columns at every index |
| `VolMonitor.GoldenWindow` | monit_vol.py:94-96 | for volumes 10, 10, 10, 10, 50 and n = 4, the last mean is 20 but the last ratio is 50 / 10 = 5 |
| `VolMonitor.Core` | monit_vol.py:100-115 | a missing or empty kline result, or fewer than n + 1 bars, never alerts; otherwise an alert is sent iff the last volume divided by the previous n-bar mean is at least x, or, when that mean is 0, iff the last volume is positive |
| `VolMonitor.InitSystem` | monit_vol.py:117-124 | startup is fatal iff x <= 1 (checked first) or slp <= 0; a missing destination only warns, and only when x passed |
| `VolMonitor.MissingDestinationNotFatal` | monit_vol.py:121-122 | whether startup succeeds never depends on the destination |
| `RsiMonitor.RsiRule` | monit_rsi.py:95-104 | an overbought alert is sent iff the last RSI is >= up, and an oversold alert iff it is <= down; the checks are independent, each alert is sent at most once and carries the value |
| `RsiMonitor.AtMostOneAlert` | monit_rsi.py:96-104 | when down < up, at most one alert fires, and a NaN RSI fires none |
| `RsiMonitor.Core` | monit_rsi.py:88-104 | a missing or empty kline result gives no alert; otherwise the RSI routine is called on field 4 of every row, in order, with period 6, and its value decides the two checks, each sending at most one alert |
| `RsiMonitor.PeriodIgnoresConfig` | monit_rsi.py:93 | the configured n never changes the alerts, because the period passed is the constant 6 |
| `RsiMonitor.ShortWindowNeverAlerts` | monit_rsi.py:93-104 | if the routine returns NaN for windows of at most 6 closes, such a window never alerts, whatever the thresholds |
| `RsiMonitor.InitSystem` | monit_rsi.py:106-113 | startup is fatal iff n <= 1 (checked first) or slp <= 0; a missing destination only warns, and only when n passed |
| `RsiMonitor.MissingDestinationNotFatal` | monit_rsi.py:110-111 | whether startup succeeds never depends on the destination |
| `CetusMonitor.RoundHalfEven` | monit_cetus.py:36-37 | rounding to an integer stays within 1/2 of the input, and an exact tie goes to the even neighbour |
| `CetusMonitor.Round4` | monit_cetus.py:36-37 | rounding to four decimals moves the value by at most 0.00005 and gives a multiple of 1/10000 |
| `CetusMonitor.SelectPrefixIsFirstMax` | monit_cetus.py:64-85 | after any prefix, the loop state is the first surviving pool with the largest positive display APR, or the seed ('', 0) when no surviving pool has a positive one |
| `CetusMonitor.FirstMaxUnique` | monit_cetus.py:82-84 | the first-maximum description fixes a single selection, so strict `>` means the first-seen pool wins a tie |
| `CetusMonitor.SelectMax` | monit_cetus.py:64-85 | the imperative loop skips pools with no rewards or only "0%"/"" rewards, and returns the first maximum of the display APR `100 * round(total_apr, 4)` |
| `CetusMonitor.HandleData` | monit_cetus.py:57-85 | the result is (None, None) iff the data is missing or the pool list is null or empty; otherwise it is the first maximum |
| `CetusMonitor.NoPositiveSurvivorGivesSeed` | monit_cetus.py:64-85 | when no reward-paying pool has a positive display APR, the result is ('', 0) |
| `CetusMonitor.Job` | monit_cetus.py:88-107 | a non-200 status is silent and a non-200 body code is an error; a missing result, an empty symbol or a zero APR stops the run; for a valid selection (non-empty symbol, non-zero APR) a notification is sent iff its APR is above min_apr |
| `CetusMonitor.NotifiedPoolIsBest` | monit_cetus.py:93-105 | a notified symbol belongs to a reward-paying pool of the snapshot, and its APR is above min_apr and not below any reward-paying pool's display APR |
| `CetusMonitor.ZeroRewardPoolIgnored` | monit_cetus.py:71-85 | pool A (APR 0.10, reward "5%") is selected with display APR 10 over pool B (APR 0.20, rewards "0%" and ""), because B pays no reward |

## Left out

- HTTP: the kline and pool-statistics requests, the status handling in `get_kline` and `to_request`, and the Feishu POST. A fetch result is a parameter, and a post is an attempt: delivery failures are caught by the source and never reach the monitor.
- The request-level `if not resp` and non-200 checks in `get_kline` are folded into the `None` fetch result.
- Parsing provider strings with `float(...)`. A row is already a sequence of numbers.
- Rows with fewer than six fields. The source indexes them unguarded and would raise, so `WellFormed` is required of callers.
- Float rounding. Sums, means and ratios are exact reals, and `round(x, 4)` is exact round-half-to-even on rationals. It is not rounding of the nearest binary double.
- `talib.RSI`. It is a foreign routine and a parameter of `RsiMonitor.Core`. Its smoothing and its [0, 100] range are not modelled.
- VolMonitor.Core: requires the window `n` to be at least 1 (so do `CalVolMa` and the column functions). The source never validates `n`, and pandas' behaviour for a window of 0 or below is library-specific.
- Message text, timestamps, log output and `pd.to_datetime`. These are presentation only. Alerts are datatypes carrying the values the messages print.
- `run`, `debug`, `main`, the `while True` loops, `time.sleep`, `schedule`, and the Cetus startup message. This is scheduling plumbing with no terminal state. Each monitor's per-poll function is pure, so a poll repeats its alerts whenever the same data recurs.
- Configuration loading (utils/util.py) and logger setup (utils/logger.py). These are I/O wrappers; configurations are typed records here.
- A missing configuration value (`None`) in a numeric comparison. The source would raise `TypeError`; the typed records always carry a value.
