# Dollar-cost-averaging calculator, modelled in Dafny

This project models the calculation engine of a dollar-cost-averaging (DCA)
tracker: `DCA_Calculator` in `dca/calculator.py`. Given a date-indexed price
frame, a per-period investment amount, a timeframe (`"day"`, `"week"`,
`"month"`, anything else meaning yearly), an optional start date and an
optional horizon in years, `calculate_returns` works in three steps:

1. It resamples the frame to one row per period. `"day"` passes the frame
   through. The other timeframes use `resample(...).first()`: for each column,
   the first present close of each period. Each row is labelled with the
   period's end date.
2. It keeps the rows whose label is on or after the start. When the horizon is
   truthy, it also drops rows whose label is after the start moved forward by
   that many years.
3. It walks the rows in order and skips rows with a missing close. At every
   other row it buys `amount / price` units and emits `(date, units held ×
   price)`.

Modules, one per stage:

- `frame.dfy` (`Frame`): rows, close cells (scalar or a non-empty group of
  per-ticker values), return points, the collapse of a close to its first
  element, and the earliest date of a frame.
- `resampling.dfy` (`Resampling`): timeframe parsing, the abstract calendar
  (`Binning`: date → period index, period index → period-end label) and
  `resample(...).first()`.
- `windowing.dfy` (`Windowing`): the start/horizon filter.
- `accumulation.dfy` (`Accumulation`): the purchase pass, both as a recursive
  function and as a loop. It also has an independent reference definition of
  the trajectory (`Trajectory`): the i-th point is the i-th purchase's date
  and the units bought up to and including it, valued at its price.
- `calculator.dfy` (`Calculator`): construction with the default start date,
  `calculate_returns` as a method, and the total invested shown by the web
  page (`investment * len(returns)`).

Modelling choices:

- Dates are integer day numbers. Prices are `real`. Floating-point rounding is
  not modelled.
- The calendar is a parameter. The weekly, monthly and yearly binnings are
  functions from date to period index and from period index to label, and
  `DateOffset(years=…)` is a function `addYears`. Properties that depend on
  calendar sanity require `ValidBinning`: period indices are monotone in the
  date, labels strictly increase, and a date's period ends no earlier than
  that date.
- The start date arrives already parsed. `None` covers both an absent and an
  empty start string, which the source treats alike. When no start is given
  and the frame is empty, pandas yields "not a time". This is modelled as a
  start of `None`, and such a window keeps nothing, since every comparison
  with "not a time" is false.
- The horizon is `Option<int>`, tested for Python truthiness: `None` and `0`
  set no upper bound. A negative horizon is truthy. Whether it then empties
  the window depends on the year offset, so the model states it for offsets
  that move a date earlier for negative years and no earlier for positive
  ones (`ValidAddYears`).
- Present prices are required to be strictly positive (`PositivePrices`). The
  source never checks this, and a zero price would divide by zero.
- The window is applied to period labels, not to the dates of the
  observations a period's close came from. A weekly row labelled on or after
  the start can therefore carry a close observed before the start. The model
  follows the code here.

## Model

| member | source | states |
|---|---|---|
| Frame.Price | dca/calculator.py:42-44 | The price read from a close is column 0: a scalar as it is, a grouped close collapsed to its first element. |
| Frame.MinDate | dca/calculator.py:17-19 | The earliest index date of a non-empty frame is one of its dates and is no later than any of them. |
| Resampling.ParseTimeframe | dca/calculator.py:26-33 | "day", "week" and "month" select their own branch, and every other string selects yearly resampling (both directions). |
| Resampling.FirstIn | dca/calculator.py:27-33 | The value `first()` picks for a period and column: it is missing exactly when every row of that period lacks the column's value. Otherwise it is the value of a row in the period with no present value before it in that period. |
| Resampling.PeriodClose | dca/calculator.py:26-33 | A resampled close has the input's shape. Each column holds its own first present value in the period, and the price read from it is column 0's first present value. |
| Resampling.Resample | dca/calculator.py:27-33 | An empty frame resamples to an empty frame. A non-empty result starts with the row labelled by the end of the first row's period. |
| Resampling.Resampled | dca/calculator.py:26-33 | "day" hands the frame through unchanged. Every timeframe keeps present prices positive, and keeps the frame sorted when the calendar is valid. |
| Resampling.DayIsIdentity | dca/calculator.py:30-31 | With "day" the frame passes through unchanged, row for row. |
| Resampling.OtherTimeframesAreYearly | dca/calculator.py:32-33 | Any string other than "week", "month" and "day" resamples with the yearly binning. |
| Resampling.ResampleRows | dca/calculator.py:27-33 | A resampled sorted frame has exactly one row per period from the first row's period to the last row's, empty periods included. Row i carries the label of the i-th period and the first present price of that period. |
| Resampling.PeriodAt | dca/calculator.py:27-33 | Row i of a resampled frame is labelled by the end of the i-th period after the first row's. Its close has the input's number of columns, and each column holds that column's first present value in the period. |
| Resampling.ResampleChronological | dca/calculator.py:27-33 | Resampled labels strictly increase. |
| Resampling.ResampleCoversEveryRow | dca/calculator.py:27-33 | Every period that holds an input row appears in the resampled frame under its label. |
| Resampling.ResampleLabelsFromFirstDate | dca/calculator.py:27-33 | No resampled label precedes the frame's first date. |
| Windowing.Select | dca/calculator.py:36 | A boolean-mask selection is a subsequence of the frame, whatever the frame's order. It holds exactly the rows that pass, never grows the frame, and keeps nothing when no row passes. |
| Windowing.SelectCounts | dca/calculator.py:36 | A passing row appears in the selection as often as in the frame; a failing row does not appear. |
| Windowing.Window | dca/calculator.py:36-39 | The window is a subsequence of the frame. It holds exactly the rows with start <= label, and also label <= addYears(start, years) when the horizon is truthy. Both bounds are inclusive, positive prices stay positive, and the window is empty when no row qualifies. |
| Windowing.WindowCounts | dca/calculator.py:36-39 | A row inside the window appears as often as in the frame; a row outside it does not appear. |
| Windowing.WindowIdempotent | dca/calculator.py:36-39 | Applying the window twice equals applying it once. |
| Windowing.NoHorizonNoUpperBound | dca/calculator.py:37-39 | A horizon of None or 0 applies only the lower-bound filter. |
| Windowing.EarlyStartKeepsAll | dca/calculator.py:36 | A start on or before every label drops nothing. |
| Windowing.LateStartKeepsNothing | dca/calculator.py:36-39 | A start after every label leaves the window empty. |
| Windowing.NegativeHorizonIsEmpty | dca/calculator.py:37-39 | A negative horizon is truthy and, with a year offset that moves dates earlier for negative years, leaves the window empty. |
| Windowing.PositiveHorizonKeepsStart | dca/calculator.py:36-39 | With a positive horizon, a row labelled exactly at the start is kept: both bounds are inclusive. |
| Accumulation.Purchases | dca/calculator.py:41-46 | There are never more purchases than rows. A frame with every price present gives one purchase per row, and one with none gives no purchase. Positive prices give positive purchase prices. |
| Accumulation.PresentFrom | dca/calculator.py:41-46 | The positions of the rows with a present price, strictly increasing. Every such row is listed and no other. |
| Accumulation.PurchasesArePresentRows | dca/calculator.py:41-47 | The purchases are, in order, the rows with a present price: each row's label and its (first-element) price. |
| Accumulation.Trajectory | dca/calculator.py:41-50 | The reference trajectory has one point per purchase, dated with that purchase's date. |
| Accumulation.Accumulate | dca/calculator.py:41-50 | The pass never emits more points than there are rows. |
| Accumulation.AccumulateLength | dca/calculator.py:41-50 | The pass emits exactly one point per purchase, whatever the units already held. |
| Accumulation.AccumulateAt | dca/calculator.py:41-50 | The i-th point of the pass is dated with the i-th purchase. Its value is the units held beforehand plus the units bought up to and including that purchase, times its price. |
| Accumulation.AccumulateIsTrajectory | dca/calculator.py:41-50 | The pass from zero units equals the reference trajectory of the present rows, point for point. |
| Accumulation.Run | dca/calculator.py:22-52 | The single-pass loop, holding only the running units, returns the reference trajectory. |
| Accumulation.AccumulateDependsOnPurchases | dca/calculator.py:41-50 | Two frames with the same purchases give the same points: skipped rows leave no trace. |
| Accumulation.MissingRowIgnored | dca/calculator.py:45-46 | Removing a row whose price is missing changes no point of the result. |
| Accumulation.TrajectoryFollowsPresentRows | dca/calculator.py:41-50 | There are as many returns as rows with a present price. Their dates are those rows' labels, in the rows' order. |
| Accumulation.UnitsIncrease | dca/calculator.py:47-48 | With a positive amount, the units held strictly increase from one purchase to the next. |
| Accumulation.ConstantPriceValue | dca/calculator.py:47-49 | At a constant price P, the k-th point (counting from one) is worth k times the amount. |
| Accumulation.ConstantPriceTrajectory | dca/calculator.py:41-50 | When every present price of a frame is P, the k-th return is worth k times the amount. |
| Accumulation.SpentPerPurchase | dca/calculator.py:47 | Buying amount/p units at price p costs exactly the amount, so a run of purchases costs the amount times their number. |
| Calculator.NewCalculator | dca/calculator.py:5-20 | The start is the given date, or else the frame's earliest date; there is none for an empty frame. The other settings are stored as given. |
| Calculator.CalculateReturns | dca/calculator.py:22-52 | The returns equal the reference trajectory of the resampled, windowed frame, and there is one return per windowed row with a present price. |
| Calculator.ReturnsChronological | dca/calculator.py:22-52 | For a sorted frame and a sane calendar, return dates strictly increase. |
| Calculator.DefaultStartDropsNothing | dca/calculator.py:17-19 | Without a start date the window's lower bound drops no row of the resampled frame, for every timeframe. |
| Calculator.LateStartGivesNothing | dca/calculator.py:36-39 | A start after every resampled label gives no returns and a total invested of zero. |
| Calculator.NegativeHorizonGivesNothing | dca/calculator.py:37-39 | A negative horizon, with a year offset that moves dates earlier for negative years, gives no returns and a total invested of zero. |
| Calculator.TotalInvested | app.py:63 | The total invested is zero when there are no returns, and never negative for a non-negative amount. |
| Calculator.InvestedGrowsByAmount | app.py:63 | Each further return adds exactly one period's amount to the total invested. |
| Calculator.TotalInvestedIsSpent | app.py:63 | The total invested for a frame's returns equals what its purchases cost: at each, the units bought valued at the price paid. |
| Calculator.ConstantPriceBreaksEven | app.py:63 | At a constant price the last return's value equals the total invested, `investment * len(returns)`. |

## Left out

- The web page (`app.py`): form handling, HTML and chart rendering, and the
  catch-all error display are presentation. Only `investment * len(returns)`
  is modelled, as `Calculator.TotalInvested`.
- Data loading (`dca/data_loader.py`): network download and CSV reading are
  I/O. The frame is an input of the model.
- Plotting (`dca/visualizer.py`): display only.
- `get_investment_data` returns the stored frame unchanged. There is nothing
  to model.
- Parsing of the start-date string and of the horizon: the model takes them
  already parsed.
- pandas calendar details: where weeks are anchored, month and year ends, and
  how `DateOffset` handles leap days. They sit behind the `Binning` and
  `addYears` parameters.
- Floating-point rounding, and the infinities or NaNs a zero price would
  produce. Prices are reals, and present prices are required to be positive.
- Resampling of a frame whose index is not sorted. pandas sorts the index
  before binning, spans the earliest date's period to the latest's, and takes
  the first value in date order. `Resampling.Resample` instead spans the first
  row's period to the last row's and takes the first value in row order. So it
  does not reproduce pandas for an unsorted index. For example, with weekly
  bins `d / 7`, the frame dated 10 then 3 gives two rows in pandas and none in
  the model. The yfinance download that `app.py` uses (app.py:52 and app.py:83)
  yields sorted dates. The CSV branch of `dca/data_loader.py` does not sort,
  and the resampling properties assume strictly increasing index dates.
- Dates outside the datetime range. The source raises when
  `start + DateOffset(years=…)` (dca/calculator.py:38) leaves that range,
  for example with a horizon of 9000 or -3000 years from 2015, and the page
  shows the error. Day numbers and `addYears` are unbounded here, so
  `Windowing.NegativeHorizonIsEmpty` and `Calculator.NegativeHorizonGivesNothing`
  give an empty result where the program raises.
- A frame without a "Close" column. `row["Close"]` (dca/calculator.py:42)
  raises `KeyError` once a row is in the window. The model's rows always carry
  a close.
- Percent change and sub-unit conversions: no such computation exists in the
  code.
