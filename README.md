# Solar battery savings: a Dafny model

The repository holds two near-identical analysis scripts, `assets/codes/solar.py`
and `codes/solar.py`. They estimate what a household saves by pairing rooftop
solar with a 12.5 kWh battery. Each script takes one year of hourly records
(hour of day, solar generation, electricity use). It drops rows with negative
readings and replaces large outliers by the column median. It derives the
hourly demand left after solar (`electricity_needed`) and the hourly solar
surplus (`excess_solar`). It runs a battery-charge loop and prices the savings
at 0.17 per kWh. `assets/codes/solar.py` then projects the year's savings over
twenty years in two price-escalation scenarios and discounts them at 6% to a
net present value.

This model states those rules over exact `real` numbers and proves their
properties. The modules follow the stages of the scripts:

- `Numeric` (`numeric.dfy`): clamps, `Pow`, `Sum` and their lemmas.
- `Frame` (`frame.dfy`): the row record, boolean masks (`data[mask]`) and the sign filter.
- `Quantiles` (`quantiles.dfy`): pandas' default linear-interpolation quantile and the median. `Stat = NaN | Num` stands for the NaN that pandas returns for an empty series.
- `Outliers` (`outliers.dfy`): `detect_outliers`, the `.loc[mask, c] = v` assignment (as a value and in place on an array) and the median replacement.
- `Cleaner` (`cleaner.dfy`): the sign filter followed by the replacement.
- `Battery` (`battery.dfy`): the derived columns and the battery loop, as a method writing an array cell by cell.
- `Savings` (`savings.dfy`): both scripts' `electricity_wout_bat` rules, the savings, and the group-by-hour totals.
- `Projection` (`projection.dfy`): the two cash-flow loops, the discount loop and the NPV, each proved equal to a reference function.

The column `electricity_w_bat` is read by both scripts but never assigned, so it is an input to the savings functions.

The model follows the code as written:

- The battery loop runs over `range(len('data'))`, the length of the string `'data'`: four iterations, whatever the number of hours.
- The loop adds the hour's demand to the charge.
- Scenario 2 appends no value for year 0, so its list has 20 entries: the investment and 19 savings.
- In `codes/solar.py`, `electricity_wout_bat` is the hour's demand when the battery is empty and 0 otherwise. In `assets/codes/solar.py` it is a copy of `electricity_needed`.
- The outlier replacement overwrites every value above the 75th percentile of the column's outliers, not the outliers themselves.

Line 210 of `assets/codes/solar.py` iterates `cost_savings`, a name the script never defines. The model discounts `cost_savings1`, the list the surrounding code evidently means.

## Model

| member | source | states |
|---|---|---|
| `Frame.Filter` | assets/codes/solar.py:51 | indexing a frame with a boolean mask (`data[mask]`) is never longer than the frame, and every row it keeps passes the mask |
| `Frame.SignFilter` | assets/codes/solar.py:27 | every row left after the sign filter has solar >= 0 and electricity >= 0 |
| `Frame.SignFilterKeepsExactly` | codes/solar.py:27 | a row survives iff neither reading is negative, and it survives as many times as it occurred |
| `Frame.SignFilterKeepsOrder` | codes/solar.py:27 | filtering `a + b` gives the filtered `a` followed by the filtered `b`: kept rows keep their relative order |
| `Frame.SignFilterKeepsLeadingLabels` | assets/codes/solar.py:27 | when the first n rows of a frame labelled 0, 1, 2, ... have no negative reading, the filter keeps them, with their labels 0 .. n-1, at the front, whichever later rows it drops |
| `Quantiles.SortAscending` | assets/codes/solar.py:46-47 | the values that a quantile interpolates between are sorted and are a permutation of the column |
| `Quantiles.Quantile` | assets/codes/solar.py:46-47 | a quantile is a number exactly when the series is non-empty, and NaN otherwise |
| `Quantiles.Median` | assets/codes/solar.py:64-65 | `.median()` is a number exactly when the column is non-empty, and then lies between Q1 and Q3 |
| `Quantiles.QuantileMonotone` | codes/solar.py:46-48 | for p <= q, quantile(p) <= quantile(q); in particular Q1 <= Q3 and the IQR is non-negative |
| `Quantiles.QuantileWithinData` | assets/codes/solar.py:46-47 | each quantile of a non-empty column lies between two of its values |
| `Quantiles.QuantileNonNegative` | assets/codes/solar.py:64-65 | a quantile (the median too) of a column without negative values is non-negative |
| `Outliers.IqrFences` | codes/solar.py:46-50 | lower_bound <= Q1 <= Q3 <= upper_bound, each fence 1.5 IQR from its quartile |
| `Outliers.DetectOutliers` | assets/codes/solar.py:45-52 | `detect_outliers` returns no row for an empty frame, no more rows than the frame has, and only rows strictly outside the fences |
| `Outliers.OutlierIff` | assets/codes/solar.py:45-52 | a row is returned by `detect_outliers` iff it is in the frame and its value is strictly below the lower fence or strictly above the upper fence |
| `Outliers.OutliersKeepOrder` | assets/codes/solar.py:51 | the outliers of `a + b` are the outliers of `a` (by the whole frame's fences) followed by those of `b`, so original order is kept |
| `Outliers.InterquartileRowsAreNotOutliers` | codes/solar.py:46-51 | no row whose value lies in [Q1, Q3] is an outlier |
| `Outliers.Assign` | assets/codes/solar.py:64-65 | `.loc[mask, c] = v` keeps length, labels, hours and the other column, and gives column c the value v exactly in the rows the mask selects |
| `Outliers.AssignInPlace` | assets/codes/solar.py:64 | the in-place `.loc` assignment leaves the frame equal to `Assign` of its old contents |
| `Outliers.ReplaceAbove` | assets/codes/solar.py:64-65 | `.loc[data[c] > cut, c] = median` changes column c exactly in the rows above the cut (none for a NaN cut), and afterwards every value of c is the median or not above the cut |
| `Outliers.OutlierCut` | assets/codes/solar.py:53-65 | the cut `outliers[c].quantile(0.75)` is NaN exactly when there are no outliers, and otherwise lies between two outlier values |
| `Outliers.ReplaceColumn` | assets/codes/solar.py:64-65 | replacing with the column median keeps labels, hours and the other column; a value of c stays when it is not above the cut and becomes the median when it is |
| `Outliers.Corrected` | assets/codes/solar.py:53-65 | after both replacements every row keeps its label and hour, and each reading is unchanged or is its column's median |
| `Outliers.CorrectedColumn` | codes/solar.py:53-65 | both cuts come from the frame before any replacement: a reading not above its column's cut is kept, and one above it becomes the column median |
| `Outliers.HandleOutliers` | assets/codes/solar.py:53-65 | in place, the frame becomes `Corrected` of its old contents: solar replaced first, then electricity, and a NaN cut (no outliers) replaces nothing |
| `Outliers.ReplaceColumnKeepsSign` | assets/codes/solar.py:64-65 | replacing values by the median never introduces a negative reading |
| `Outliers.CorrectedKeepsFrame` | codes/solar.py:64-65 | the corrected frame has no negative reading and keeps every row's label and hour |
| `Outliers.SmallestOutlierSurvives` | assets/codes/solar.py:64-65 | the smallest outlier of a column is never above the cut, so after the correction it keeps its value and is still outside the fences |
| `Outliers.SingleOutlierSurvives` | assets/codes/solar.py:64-65 | a column with exactly one outlier keeps that outlier's value |
| `Outliers.LowOutliersReplaceInliers` | assets/codes/solar.py:64-65 | when every outlier lies below the lower fence, every row at or above the lower fence is overwritten with the column median |
| `Outliers.IntendedReplaceColumn` | assets/codes/solar.py:44-65 | the corrected replacement of one column turns exactly the values outside the fences into the column median and keeps every value inside them, so every value ends inside the fences; labels, hours and the other column stay |
| `Outliers.IntendedCorrectionWithinFences` | assets/codes/solar.py:44-65 | after the corrected replacement of both columns every reading lies inside its column's original fences, and labels and hours stay |
| `Outliers.HandleOutliersIntended` | assets/codes/solar.py:53-65 | in place, the frame becomes `IntendedCorrected` of its old contents |
| `Cleaner.Clean` | assets/codes/solar.py:27-65 | the cleaned frame is the outlier correction of the sign-filtered frame |
| `Cleaner.CleanedFrameIsNonNegative` | codes/solar.py:27-65 | after cleaning no reading is negative, and every row comes from a raw row with the same label and hour whose readings were non-negative |
| `Cleaner.CleanedFrameKeepsLeadingLabels` | assets/codes/solar.py:27-101 | if the first n loaded rows have no negative reading, the cleaned frame's first n rows carry labels 0 .. n-1, as the battery loop over n rows requires |
| `Cleaner.CleanIntended` | assets/codes/solar.py:27-65 | the cleaner with the corrected outlier replacement |
| `Battery.Needed` | assets/codes/solar.py:77 | `(electricity - solar).clip(lower=0)` is non-negative, at least the difference, and either 0 or the difference |
| `Battery.Excess` | assets/codes/solar.py:82 | `(solar - electricity).clip(lower=0)` is non-negative, at least the difference, and either 0 or the difference |
| `Battery.NeededColumn` | assets/codes/solar.py:77 | the `electricity_needed` column has one entry per row, each the clipped demand of that row: non-negative and at least electricity - solar |
| `Battery.ExcessColumn` | assets/codes/solar.py:82 | the `excess_solar` column has one entry per row, each the clipped surplus of that row: non-negative and at least solar - electricity |
| `Battery.NeededExcessComplementary` | assets/codes/solar.py:77-82 | `electricity_needed` and `excess_solar` are non-negative, never both positive, and needed - excess = electricity - solar |
| `Battery.ChargeStep` | assets/codes/solar.py:100-101 | one step of the loop gives a non-negative charge, at most 12.5 plus the hour's demand, and a non-negative demand never brings it below the capped charge |
| `Battery.Charge` | assets/codes/solar.py:95-101 | every charge is non-negative, and row 0 and every row the loop does not reach keep 0.0 |
| `Battery.ChargeColumn` | assets/codes/solar.py:95-101 | the `battery_charge` column is non-negative, 0.0 outside rows 1 .. loops-1, and each written row follows from the row before it by one loop step |
| `Battery.SimulateBattery` | assets/codes/solar.py:93-101 | the column starts at 0.0 and the loop writes cell i from cell i-1: the result is `ChargeColumn`, given that the first `loops` rows carry labels 0 .. loops-1 |
| `Battery.OnlyFirstRowsWritten` | codes/solar.py:95-101 | `len('data')` is 4, so row 0 and every row from 4 on keep 0.0 |
| `Battery.WrittenChargeBounds` | codes/solar.py:100-101 | on clean columns each written row is min(b[i-1] + excess[i-1], 12.5) + needed[i]: at least the capped charge, at most 12.5 + needed[i], and the outer max is a no-op |
| `Battery.ChargeCanExceedCapacity` | assets/codes/solar.py:100-101 | with excess 10 kWh in hour 0 and demand 5 kWh in hour 1, row 1 holds 15 kWh, above the 12.5 kWh capacity |
| `Battery.LoopStopsAfterRowThree` | assets/codes/solar.py:98 | with 1 kWh of excess every hour, row 3 holds 3 kWh but row 4 stays 0.0 |
| `Battery.FullLoopChargesEveryRow` | assets/codes/solar.py:98-101 | with the loop over every row, each hour after an hour with excess solar holds charge |
| `Battery.IntendedChargeWithinCapacity` | assets/codes/solar.py:98-101 | the corrected recurrence, which subtracts demand, keeps the charge in [0, 12.5] |
| `Battery.SimulateBatteryIntended` | assets/codes/solar.py:98-101 | the corrected loop over every row computes the corrected recurrence in place |
| `Savings.WithoutBattery` | codes/solar.py:112 | `electricity_wout_bat` is the demand when the battery is empty and 0 when it holds charge, so within [0, needed] for a non-negative demand |
| `Savings.WithoutBatteryColumn` | codes/solar.py:112 | the `electricity_wout_bat` column holds, row by row, the demand where the battery column is 0 and 0 elsewhere, and lies within [0, needed] wherever the demand is non-negative |
| `Savings.Saving` | codes/solar.py:115-116 | an hour's saving is >= 0, positive exactly when the purchase with battery is smaller, and at most 0.17 times the purchase without battery when both are non-negative |
| `Savings.SavingsColumn` | assets/codes/solar.py:115-117 | the `savings` column has one non-negative saving per hour |
| `Savings.AssetsSavings` | assets/codes/solar.py:112-117 | with wout_bat a copy of needed, every saving is >= 0, and at most 0.17 times the hour's demand when the demand and the purchase with battery are non-negative |
| `Savings.CodesSavings` | codes/solar.py:112-117 | every saving is >= 0; an hour with charge in the battery saves nothing when the purchase with battery is non-negative; no hour saves more than 0.17 times its demand when the demand and the purchase with battery are non-negative |
| `Savings.TotalSavingsNonNegative` | assets/codes/solar.py:119 | the annual savings are never negative |
| `Savings.HourTotal` | assets/codes/solar.py:118 | an hour that does not occur totals 0, and every hour's total of a column without negative values is non-negative |
| `Savings.GroupByHour` | assets/codes/solar.py:118 | the group-by-hour result has exactly one total per hour that occurs |
| `Savings.GroupTotalsAddUp` | codes/solar.py:118-119 | over every occurring hour listed once in any order, the per-hour totals add up to the total savings |
| `Projection.FlatCash` | assets/codes/solar.py:190-201 | `cost_savings1` has 21 entries: entry 0 is -7000 and entry k is savings * 1.04^(k-1) for k = 1..20 |
| `Projection.FlatCashFlows` | assets/codes/solar.py:190-201 | the append loop builds exactly `FlatCash` |
| `Projection.FlatCashFlowsIncrease` | assets/codes/solar.py:193-201 | with positive savings, entries 1..20 of scenario 1 strictly increase |
| `Projection.AcceleratingCash` | assets/codes/solar.py:217-229 | `cost_savings2` has 20 entries: entry 0 is -7000 and entry k is savings * (1 + 0.04 + 0.0025 k)^k for k = 1..19 |
| `Projection.AcceleratingCashFlows` | assets/codes/solar.py:217-229 | the append loop, which computes but never appends the year-0 value, builds exactly `AcceleratingCash` |
| `Projection.AcceleratingCashFlowsIncrease` | assets/codes/solar.py:218-229 | with positive savings, entries 1..19 of scenario 2 strictly increase |
| `Projection.DiscountFactor` | assets/codes/solar.py:211 | the discount factor 1.06^i is at least 1 |
| `Projection.Discounted` | assets/codes/solar.py:210-212 | the discounted list has the length of the cash list and entry i is c_i / 1.06^i |
| `Projection.Discount` | assets/codes/solar.py:207-212 | the discount loop builds exactly `Discounted` |
| `Projection.DiscountKeepsSign` | assets/codes/solar.py:236-238 | each discounted entry has the sign of its cash flow and is no larger in magnitude |
| `Projection.NetPresentValue` | assets/codes/solar.py:207-214 | the loop returns the discounted list and its sum, `Npv` of the cash list |
| `Projection.NpvAtLeastInvestment` | assets/codes/solar.py:240 | when the yearly savings are non-negative, the NPV is at least -7000 |
| `Projection.ProjectScenarios` | assets/codes/solar.py:186-240 | npv1 and npv2 are the NPVs of scenario 1 and scenario 2 built from the annual savings, and with non-negative savings both are at least the -7000 investment |
| `Numeric.SumPermutation` | assets/codes/solar.py:214 | a sum such as the NPV does not depend on the order of its terms: permuted lists have the same sum |

## Left out

- Loading the Excel file, every `print`, and all seaborn/matplotlib plotting (lines 9-12, 30-42, 56-61, 67-74 and 146-182 of `assets/codes/solar.py`). These are input and display.
- The date column. It is only converted and used for months and display.
- The missing-value and duplicate counts (lines 18-24). They are printed and never acted on.
- The hourly averages of line 30. They feed only a plot. The group-by-hour sums that the scripts print (lines 78, 83, 104 and 118) are all `Savings.GroupByHour` applied to the respective column.
- Month extraction and the monthly tables (`assets/codes/solar.py` lines 124-143). They rely on date formatting and a label `reindex` that yields NaN, and they only feed plots.
- The IRR (`assets/codes/solar.py` lines 243-252). `npf.irr` is a numerical root finder from a foreign library, applied there to the already discounted lists.
- Rounding for display (`round(…, 2)`).
- IEEE floating point. Values are exact reals. The only NaN modelled is that of a quantile or median of an empty series, as `Quantiles.Stat`, with every comparison against it false.
- SimulateBattery: requires the frame to have at least as many rows as the loop count. With fewer rows, `.at` either raises KeyError or enlarges the frame with NaN rows.
- SimulateBattery: requires the first `loops` rows to carry the labels 0 .. loops-1, so that `.at[i]` addresses row i. If the sign filter drops one of those rows, the scripts read or write a different row than the model does. Rows that the filter drops further on do no harm (`Cleaner.CleanedFrameKeepsLeadingLabels`).
- IntendedCorrectionWithinFences: promises that every reading lies inside its column's original fences, not that a second `detect_outliers` finds nothing. The corrected frame's quartiles can be closer together: with solar values 0, 0, 0, 1, 10 only 10 is an outlier, it becomes the median 0, and the new fences are both 0, which flags the row holding 1.
- SimulateBatteryIntended: requires every row's label to equal its position, since the corrected loop visits every label.
- Writing the derived columns into the frame. `electricity_needed` and `excess_solar` are modelled as functions of a row (`Battery.Needed`, `Battery.Excess`) and as columns (`Battery.NeededColumn`, `Battery.ExcessColumn`). The frame itself stays a sequence of rows.

## Findings

| source | as written | input that shows it | evidently intended | confidence | as-written member | corrected member |
|---|---|---|---|---|---|---|
| assets/codes/solar.py:98 | the loop runs over `range(len('data'))`, the length of the string 'data', so it writes only rows 1-3 | five hours with 1 kWh of excess solar each: row 3 holds 3 kWh, row 4 stays 0.0 | `range(len(data))`, one step per hour of the frame | high; not executed | `Battery.LoopStopsAfterRowThree` | `Battery.FullLoopChargesEveryRow` |
| assets/codes/solar.py:101 | the hour's demand is added to the charge | 10 kWh excess in hour 0, 5 kWh demand in hour 1: the charge of hour 1 is 15 kWh, above the 12.5 kWh capacity | the battery discharges by the demand, so the charge stays within [0, 12.5] | medium; not executed | `Battery.ChargeCanExceedCapacity` | `Battery.IntendedChargeWithinCapacity` |
| assets/codes/solar.py:64-65 | the replacement cut is the 75th percentile of the outliers, compared with a strict `>`, so the smallest outlier is never replaced | a column with a single outlier: the cut equals the outlier's own value and the spike stays (`Outliers.SingleOutlierSurvives`) | every value outside the 1.5 IQR fences is replaced by the column median | high; not executed | `Outliers.SmallestOutlierSurvives` | `Outliers.IntendedCorrectionWithinFences` |
| assets/codes/solar.py:64-65 | with only low outliers the cut lies below the lower fence, so every ordinary value is above it | a column whose only outliers are below the lower fence: every row inside the fences becomes the median | only the outliers are replaced | high; not executed | `Outliers.LowOutliersReplaceInliers` | `Outliers.IntendedReplaceColumn` |

The same lines appear in `codes/solar.py` (98, 101, 64-65).

The fix for line 98 alone is `Battery.SimulateBattery` called with `loops = |data|`: every row after the first is then written, and `Battery.FullLoopChargesEveryRow` holds. `Battery.SimulateBatteryIntended` fixes lines 98 and 101 together.

The savings stage takes the battery column as an input (`Savings.CodesSavings`), so it accepts either the as-written column of `Battery.SimulateBattery` or the corrected column of `Battery.SimulateBatteryIntended`. `Cleaner.CleanIntended` is the cleaner with the corrected outlier replacement.
