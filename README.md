# Streamflow seasonal comparison: analysis core

A Dafny model of the analysis functions of `streamflow_forecast.py`, which compares a
river gauge's recent discharge (flow in cubic feet per second, read every 15 minutes)
with the same calendar window in each of the nine previous years.

The model covers:

- **Calendar** and **DateWindowPlanner**: the proleptic Gregorian `date` of Python
  (years 1 to 9999, ordinals counted from 0001-01-01), `date ± timedelta(days=n)`,
  the one-year step `sub_year` with its 29 February fallback, and the ten
  (start, end) date windows that `get_streamflow_data` requests.
- **VolumeEstimator**: `get_streamflow_volume`, a middle Riemann sum with a fixed
  900-second width, converted to acre-feet.
- **RateEstimator**: `get_streamflow_change`, the rate at the end of a window, and the
  word ("rising", "dropping", "stable") the chart title picks for it.
- **OutlierSelector**: `get_streamflow_outliers`, the windows of largest and smallest
  volume, each the first such in the list.
- **HistoricalAverager**: `get_streamflow_average`, which pops the anchor window off the
  caller's list in place (a class `FrameList` whose `frames` field the method changes)
  and averages the rest key by key.
- **TrendProjector**: `calculate_linear_regression`, the least-squares sums loop, the
  closed-form slope and intercept, and the two points returned.
- **Errors** and **Lists**: the exceptions raised (as a `Result` type), Python's
  `max`, `min` and `list.index`, and a reference sum of a sequence that the
  volume and regression lemmas are stated with.

Floating-point values are modelled as `real`. Every exception the modelled code can
raise is an `Err` result carrying the exception class.

The model follows the code:

- The volume width is the constant 900 seconds, and timestamps are not read.
- The rate is older minus newer.
- The average divides by the number of historical windows.
- One historical window suffices for the average.
- The second regression point is taken at `max(ys)`.

The rate's sign and the second regression point are logged under Findings.

## Model

| member | source | states |
|---|---|---|
| Calendar.SubYear | streamflow_forecast.py:89-104 | `sub_year` succeeds exactly when the year is at least 2, otherwise ValueError. The result is a valid date one year earlier in the same month. The day is kept, except 29 February becomes 28 when the previous year is not a leap year. |
| Calendar.SubYearNClosedForm | streamflow_forecast.py:72-74 | k successive `sub_year` steps succeed exactly when year − k ≥ 1, otherwise ValueError. They land on the same month k years back. The day is kept, except that 29 February becomes 28 at the first step and stays 28. |
| Calendar.SubYearN | streamflow_forecast.py:72-74 | Any result of k successive `sub_year` steps is a valid date. |
| Calendar.AddDays | streamflow_forecast.py:51-52 | `d + timedelta(days=n)` succeeds exactly when the target ordinal lies in 1..3652059. The result is a valid date whose ordinal is n more than d's. Otherwise OverflowError. |
| Calendar.NextDay | streamflow_forecast.py:52 | One day forward: the next ordinal, or OverflowError after 9999-12-31. |
| Calendar.PrevDay | streamflow_forecast.py:51 | One day back: the previous ordinal, or OverflowError before 0001-01-01. |
| Calendar.AddDaysRoundTrip | streamflow_forecast.py:51-52 | Adding n days and then −n days returns the original date. |
| Calendar.OrdinalInjective | streamflow_forecast.py:51-52 | Two valid dates with the same ordinal are equal, so day arithmetic has one answer. |
| Calendar.OrdinalOrder | streamflow_forecast.py:51-52 | A date in an earlier year, or in an earlier month of the same year, has a smaller ordinal. |
| Calendar.OrdinalBounds | streamflow_forecast.py:51-52 | Every valid date's ordinal lies in 1..3652059. Only 0001-01-01 has ordinal 1 and only 9999-12-31 has the largest. |
| Calendar.YearLength | streamflow_forecast.py:89-91 | A leap year (divisible by 4, not by 100 unless by 400) has 366 days, any other 365. |
| DateWindowPlanner.StreamflowWindows | streamflow_forecast.py:51-75 | The plan succeeds exactly when both offsets stay in range and both offset dates are after year 9. Then it has ten windows. The anchor window runs from 14 days before the anchor to the anchor itself. Window i is `sub_year` applied i times to anchor − 14 days and to anchor + 6 days. Failures are OverflowError for the offsets and ValueError for `sub_year`. |
| DateWindowPlanner.ExtendHistoricalWindows | streamflow_forecast.py:72-74 | Appending the window of the next `sub_year` step keeps every window i equal to i steps back from the first window's dates. |
| VolumeEstimator.StreamflowVolume | streamflow_forecast.py:121-142 | The accumulation loop computes the recursive middle sum times 2.29568e-5. Fewer than two readings give 0. |
| VolumeEstimator.VolumeIsTrapezoidRule | streamflow_forecast.py:133-141 | With at least two readings, the volume is 900 × (sum of readings − half the first − half the last) × 2.29568e-5, the trapezoid rule. |
| VolumeEstimator.ConstantFlowVolume | streamflow_forecast.py:133-141 | Constant flow c over n ≥ 1 readings gives 900 · c · (n − 1) · 2.29568e-5 acre-feet. |
| VolumeEstimator.ScaledVolume | streamflow_forecast.py:133-141 | Multiplying every reading by k multiplies the volume by k. |
| VolumeEstimator.NonNegativeVolume | streamflow_forecast.py:133-141 | Readings that are never negative give a volume that is never negative. |
| RateEstimator.StreamflowChange | streamflow_forecast.py:106-119 | Fewer than two readings raise ValueError at the tuple unpacking. Otherwise the rate is 4 · (second-to-last − last). |
| RateEstimator.ChangeSign | streamflow_forecast.py:115-119 | The rate is positive exactly when the latest reading is lower than the one before. It is zero exactly when they are equal, and negative exactly when the latest is higher. |
| RateEstimator.TitleDirection | streamflow_forecast.py:277-282 | The title says rising exactly for a positive rate and dropping exactly for a negative one. |
| RateEstimator.RisingFlowTitledDropping | streamflow_forecast.py:116-117 | As written, a window whose last reading went up is titled "dropping". |
| RateEstimator.CorrectedTitleMatchesFlow | streamflow_forecast.py:277-282 | With the rate taken as newer minus older, the title says rising, dropping or stable exactly when the last reading went up, down or stayed the same. |
| OutlierSelector.StreamflowOutliers | streamflow_forecast.py:144-160 | Returns the window with the largest volume and the window with the smallest volume. Each is the first position in the list holding that volume. |
| OutlierSelector.FirstExtremesUnique | streamflow_forecast.py:157-158 | The first position of the largest (or smallest) volume is unique, so the choice is deterministic. |
| OutlierSelector.EqualVolumesPickFirst | streamflow_forecast.py:157-158 | When all volumes are equal, both results are the first window. |
| Lists.Max | streamflow_forecast.py:157 | `max` returns an element that is at least every element. |
| Lists.Min | streamflow_forecast.py:158 | `min` returns an element that is at most every element. |
| Lists.IndexOf | streamflow_forecast.py:157-158 | `list.index` returns the first position holding the value. |
| HistoricalAverager.Keys | streamflow_forecast.py:175 | The merged table has a row for a key exactly when some window has that key. |
| HistoricalAverager.FrameList.PopFront | streamflow_forecast.py:172 | `pop(0)` returns the first window and leaves the rest in order. On an empty list it raises IndexError and changes nothing. |
| HistoricalAverager.StreamflowAverage | streamflow_forecast.py:162-179 | The caller's list loses its first window, and the rest stays in order. An empty list raises IndexError. A list of one window raises ValueError. Otherwise the result is the key-by-key average of the remaining windows. |
| HistoricalAverager.MissingKeyCountsInDivisor | streamflow_forecast.py:175-177 | If every window with key k reads c there, the average at k is c × (windows having k) / (all windows). A missing key adds nothing to the sum but still counts in the divisor. |
| HistoricalAverager.AverageOfCopies | streamflow_forecast.py:175-177 | Averaging copies of one window gives that window back. |
| HistoricalAverager.AverageWithinBounds | streamflow_forecast.py:177 | At a key every window has, the average lies between the smallest and the largest reading there. |
| HistoricalAverager.AverageOfTwo | streamflow_forecast.py:175-177 | With two historical windows, the average at a key is half the sum of their readings there, a missing reading counting as zero. |
| TrendProjector.LinearRegression | streamflow_forecast.py:181-216 | The sums loop and the closed form give the two points of `Regression`. The call fails with ZeroDivisionError exactly when the readings are all equal or there are none. |
| TrendProjector.ClosedForm | streamflow_forecast.py:207-208 | The slope and intercept are the closed-form fit. ZeroDivisionError exactly when n · Σx² − (Σx)² is zero or n is zero. |
| TrendProjector.RegressionOfFit | streamflow_forecast.py:207-214 | The result is the fit's error, or the fitted line at min(xs) and at max(ys). |
| TrendProjector.DegenerateIffAllEqual | streamflow_forecast.py:207 | n · Σx² − (Σx)² is never negative, and it is zero exactly when all readings are equal. |
| TrendProjector.FitFailsIffAllEqual | streamflow_forecast.py:207-208 | The fit fails exactly when the readings are all equal (including none). |
| TrendProjector.DenominatorStep | streamflow_forecast.py:201-207 | Appending a reading x grows the divisor by the squared distances of the earlier readings to x. |
| TrendProjector.SpreadZero | streamflow_forecast.py:207 | A zero sum of squared distances to x means every reading equals x. |
| TrendProjector.NormalEquations | streamflow_forecast.py:207-208 | The fitted slope and intercept solve both normal equations of least squares. |
| TrendProjector.FitIsLeastSquares | streamflow_forecast.py:207-208 | The fitted line's position residuals sum to zero. They are also orthogonal to the flows, which characterises the least-squares line. |
| TrendProjector.ResidualSumExpanded | streamflow_forecast.py:202-208 | The sum of residuals equals Σy − n·a − b·Σx over the loop's sums. |
| TrendProjector.ResidualMomentExpanded | streamflow_forecast.py:202-208 | The flow-weighted residual sum equals Σxy − a·Σx − b·Σx² over the loop's sums. |
| TrendProjector.PassesThroughMeans | streamflow_forecast.py:208 | The fitted line passes through (Σx/n, Σy/n). |
| TrendProjector.IndexSumClosedForm | streamflow_forecast.py:192-203 | The sum of positions 0..n−1 is n(n−1)/2. |
| TrendProjector.MaxOfPositions | streamflow_forecast.py:212 | `max(ys)` is the last position n − 1. |
| TrendProjector.SecondPointAtLastPosition | streamflow_forecast.py:210-214 | The result is (a + b · min(xs), a + b · (n − 1)). |
| TrendProjector.LineRise | streamflow_forecast.py:213-214 | Between two abscissae lo < hi the line rises by slope · (hi − lo). It rises exactly when the slope is positive. |
| TrendProjector.SecondPointBelowFirstForRisingLine | streamflow_forecast.py:212 | As written, readings [10, 20] fit the rising line with slope 0.1 and intercept −1. The returned points are (0, −0.9): the second lies below the first. |
| TrendProjector.CorrectedPointsFollowSlope | streamflow_forecast.py:211-214 | With the second point at max(xs), both points lie on the fitted line at the smallest and largest flow. The segment rises exactly when the slope is positive and falls exactly when it is negative. |

## Left out

- The USGS fetch through `hydrofunctions` and the DataFrame construction (lines 57-69, 75-84) are network I/O and pandas reshaping. Only the dates of each window are modelled.
- The `strftime`/`strptime` key formatting (lines 62-63, 218-227) is library string formatting. A key is modelled as a record of month, day, hour, minute and second.
- Argument parsing (lines 10-37), plotting and `main` (lines 229-298) are user interface, except the title's choice of word (lines 277-282), modelled by TitleDirection. The standard deviation of the average (line 248) is a pandas call and is also left out.
- The `isinstance(x, float)` filter (line 191) is taken to keep every reading, so `xs` and `ys` have the same length.
- Python floats are modelled as exact reals. Rounding, infinities and NaN are not modelled, so `max`/`min` over NaN are not covered either.
- OutlierSelector.StreamflowOutliers: requires a non-empty list, where Python's `max` of an empty list would raise ValueError. The only caller always passes the ten windows.
- OutlierSelector.StreamflowOutliers: works on a copy of the window sequence. That the caller's list is left unmodified holds by construction and is not stated.
- HistoricalAverager.StreamflowAverage: returns the avg column only. The source returns the whole merged table, the outer-joined historical columns plus `avg`; its caller reads only `avg`.
- HistoricalAverager: a pandas DataFrame column becomes a map from key to reading. Column order and the `year` column are not modelled.
- TrendProjector.CorrectedPointsFollowSlope: states the direction of the corrected segment, not its exact rise. LineRise states the exact rise for any line.

## Findings

| source | as written | input that shows it | evidently intended | confidence | as-written member | corrected member |
|---|---|---|---|---|---|---|
| streamflow_forecast.py:116-119 | The rate is older minus newer, and lines 277-280 title a positive rate "rising". | Last two readings 10 then 20: rate −40, titled "dropping". | Newer minus older, so that the title's word matches the flow. | medium, not executed | RateEstimator.RisingFlowTitledDropping | RateEstimator.CorrectedTitleMatchesFlow |
| streamflow_forecast.py:212 | The second point is evaluated at `max(ys)`, the last position, on the flow axis. | Readings [10, 20]: the line has slope 0.1, yet the points are (0, −0.9), and the second is below the first. | `max(xs)`, the largest flow, pairing with `min(xs)` at line 211. | high, not executed | TrendProjector.SecondPointBelowFirstForRisingLine | TrendProjector.CorrectedPointsFollowSlope |
