# Climate predictor data pipeline, in Dafny

This project models the server-side data pipeline of the climate predictor (`api.py`):

- **Parameter labels** (`get_parameter_name`): a closed table from open-meteo daily
  parameter ids to human-readable labels, with "Wind Speed" as the default
  (`parameters.dfy`, module `ParameterNames`).
- **Yearly aggregation** (the tail of `get_weather_data`, after the archive has answered;
  `aggregation.dfy`, module `Aggregation`):
  - missing daily readings (`None`) are overwritten with 0 in place;
  - every ISO date is cut to its four-character year prefix;
  - the series is split into maximal runs of equal prefix, with a special case for a
    single distinct year;
  - the result is one mean per run, the first year, an exclusive end year and the
    units, chosen by substring tests on the parameter id.
- **Moving-average windowing** (`transform_data`; `windowing.dfy`, module `Windowing`):
  for every year of an inclusive range, the year is kept when a window of
  `moving_average` yearly values ending at it fits, and its value is the window's sum
  divided by `moving_average`.

Supporting modules:

- `seqmath.dfy` (`SeqMath`): Python's `sum`, the mean, and Python's slice with negative
  and out-of-range bounds.
- `text.dfy` (`Text`): the substring test `sub in s`, the prefix `date[:4]` and `int(s)`.
- `wrappers.dfy` (`Wrappers`): `Option` and `Result`.

Each imperative piece of the code is a method proved against a specification function:

- `Aggregation.ReplaceMissing` on an `array` against `ZeroFilled`;
- `Aggregation.YearlyAverages` against `AnnualMeans`;
- `Aggregation.GetAnnualSeries` against `Aggregate`;
- `Windowing.TransformData` against `Transform`.

The lemmas state what the code promises about those functions. A Python exception
becomes an `Err` value:

- `EmptyInput` for the division by zero on an empty daily series;
- `MalformedDate` for `int()` on a prefix that is not a number;
- `ZeroWindow` for `moving_sum / 0`.

`Aggregate` takes the readings after zero filling. `GetAnnualSeries` takes the fetched
list with its gaps, fills it in place, and equals `Aggregate` applied to
`ZeroFilled` of the fetched list.

## Model

| member | source | states |
|---|---|---|
| ParameterNames.ParameterName | api.py:7-17 | the default label "Wind Speed" is returned exactly for ids outside the seven-entry table; every other result is one of the table's labels |
| ParameterNames.ParameterNameInjective | api.py:8-17 | two ids with the same label are equal, or both unknown: the label identifies a known parameter |
| ParameterNames.ParameterNameTable | test/api_test.py:7-15 | each of the seven known ids gets its fixed label and "windspeed_10m_max" gets "Wind Speed" |
| Aggregation.ZeroFilled | api.py:88-90 | the readings once every missing one counts as 0, one per fetched reading; its meaning is stated by `ZeroFilledExact` |
| Aggregation.ZeroFilledExact | api.py:88-90 | zero filling puts 0 exactly where a reading is missing and keeps every present reading at its position |
| Aggregation.ReplaceMissing | api.py:88-90 | after the in-place loop, every cell holds the zero-filled reading for its position, so the length is unchanged and no `None` is left |
| Text.YearPrefix | api.py:93 | `date[:4]` is a prefix of the date, four characters long, or the whole date when it is shorter |
| Aggregation.Years | api.py:93 | there is one year prefix per date |
| Aggregation.ChangesBefore | api.py:110 | the comprehension `[i for i in range(1, m) if years[i] != years[i - 1]]`, built position by position; its meaning is stated by `ChangesBeforeExact` |
| Aggregation.ChangeIndexes | api.py:108-112 | the change indexes: 0, the year changes, and the length; their shape is stated by `ChangeIndexesShape` and `ChangeIndexesAreMaximalRuns` |
| Aggregation.ChangesBeforeExact | api.py:108-112 | the comprehension lists exactly the positions `i >= 1` whose prefix differs from position `i - 1`, in strictly increasing order |
| Aggregation.ChangeIndexesShape | api.py:108-112 | the change indexes start at 0, end at the length and never decrease; for a non-empty series they strictly increase |
| Aggregation.CutPointsAdjacent | api.py:108-112 | consecutive change indexes are ordered and within the series, strictly so for a non-empty series |
| Aggregation.ChangeIndexesAreMaximalRuns | api.py:108-112 | for a non-empty series, consecutive change indexes delimit non-empty runs of one year each, and every run differs in year from the run before it |
| Aggregation.SingleYearIsOneRun | api.py:103-112 | with one distinct prefix the change indexes are `[0, len]`: a single run covering the whole series |
| Aggregation.AnnualMeans | api.py:113-117 | the yearly means as the run partition defines them: `EmptyInput` for an empty series, else one mean per pair of consecutive change indexes (`AnnualMeansAreRunMeans`); the loop that computes them is `YearlyAverages` |
| Aggregation.MeansBetween | api.py:115-117 | the mean of every slice between consecutive cut points, each of them non-empty |
| Aggregation.SingleYearMean | api.py:103-105 | the single-year branch's `sum(values) / len(values)` is the one mean the run partition gives too |
| Aggregation.YearlyAverages | api.py:103-117 | the branch on the number of distinct years and the loop over the change indexes compute the run means, or fail with `EmptyInput` on an empty series |
| Aggregation.AnnualMeansAreRunMeans | api.py:113-117 | for a non-empty series there is one mean per pair of consecutive change indexes, each the sum of a non-empty run divided by its length |
| Aggregation.UnitsFor | api.py:119-125 | the units are Celsius exactly when "temperature" occurs in the id, mm/day exactly when "temperature" does not occur and "sum" does, and km/hr otherwise |
| Text.Contains | api.py:120-122 | `sub in s` holds exactly when `sub` occurs at some position of `s` |
| Text.ParseInt | api.py:128-129 | `int(prefix)` succeeds exactly on a non-empty string of decimal digits, and its value is below 10 to the string's length |
| Text.DigitsValue | api.py:128-129 | the decimal value of `n` digits is below 10^n |
| Aggregation.ParseYearDigits | api.py:128-129 | a four-digit prefix converts to the year it spells |
| Aggregation.Aggregate | api.py:102-132 | the result dict as a function of the dates, the zero-filled readings and the parameter id: run means first, then units, then the first and last prefix converted; its behaviour is stated by `AggregateOutcome`, `AggregateResult`, `AggregateSingleYear` and `AggregateConsecutiveYears`, and `GetAnnualSeries` is proved to compute it |
| Aggregation.GetAnnualSeries | api.py:84-132 | the method leaves the fetched array zero-filled and returns what `Aggregate` gives on the zero-filled readings |
| Aggregation.AggregateOutcome | api.py:113-130 | the aggregation fails with `EmptyInput` exactly on an empty series, and succeeds exactly when the series is non-empty and the first and last prefixes are numbers |
| Aggregation.AggregateResult | api.py:113-130 | a result starts at the first prefix's value, ends one past the last prefix's value, carries the parameter's units, and holds one mean per maximal run of equal year |
| Aggregation.AggregateOfParts | api.py:127-130 | the series is assembled from the run means, the first prefix's value and the last prefix's value plus one |
| Aggregation.AggregateSingleYear | test/api_test.py:48-53 | a series within one year yields the single mean of all its readings, for the span `[year, year + 1)` |
| Aggregation.ChangesCountYears | api.py:108-112 | along date-sorted prefixes the number of year changes is the distance from the first year |
| Aggregation.ChangesBeforePrefix | api.py:110 | the year changes found up to one position are the first of those found up to any later position |
| Aggregation.RunStartsBefore | api.py:108-112 | the run numbered by the year changes up to position `j` starts at or before `j` |
| Aggregation.RunEndsAfter | api.py:108-112 | that run ends after `j` |
| Aggregation.ChangeAfter | api.py:110 | a year change not found up to position `j` lies after `j` |
| Aggregation.RunOfPosition | api.py:108-112 | every position lies in the run numbered by the year changes up to it |
| Aggregation.RunsAreYears | api.py:108-112 | along date-sorted prefixes with no missing year, run number `k` holds exactly the dates whose prefix reads as the first year plus `k` |
| Aggregation.AggregateConsecutiveYears | api.py:108-130 | on a date-sorted archive with no missing year, the aggregation succeeds once the first prefix is a number; there are `end_year - start_year` means, and mean number `k` is the mean of exactly the readings dated in year `start_year + k` |
| Aggregation.TwoYearsOfTemperatures | api.py:84-130 | two years of daily maxima with one missing reading give the means [5.0, 5.0] for 2020 to 2022 in degrees Celsius |
| SeqMath.Sum | api.py:117 | Python's `sum`, accumulating from the left from 0; its partner is `SumConcat` |
| SeqMath.SumConcat | api.py:117 | `sum` of two lists one after the other is the sum of their totals |
| SeqMath.Mean | api.py:117 | `sum(s) / len(s)`, defined for a non-empty list only, as Python raises on an empty one |
| SeqMath.SumWithinBounds | api.py:117 | a sum lies between its length times any lower bound and times any upper bound of its elements |
| SeqMath.MeanWithinBounds | api.py:117 | a yearly mean lies between any lower and any upper bound of the readings averaged |
| SeqMath.PySlice | api.py:153 | Python's `s[lo:hi]` with negative bounds counted from the end and bounds clamped to the list; empty when they cross |
| SeqMath.SliceBound | api.py:153 | a Python slice bound lands inside `[0, len]`, and a bound already inside is kept |
| SeqMath.PySliceInBounds | api.py:153 | for bounds inside the list, Python's slice is the plain subsequence |
| Windowing.Kept | api.py:150 | the test `index >= moving_average - 1 and index < len(values)` with `index = year - start_year` |
| Windowing.WindowValue | api.py:153-154 | `sum(values[index - ma + 1 : index + 1]) / ma` with Python's slice |
| Windowing.Transform | api.py:136-156 | the result of `transform_data` as a closed form: the kept years form one unbroken range, each paired with its window value; `ZeroWindow` when the window is 0 and some year is kept; `TransformData` is proved to compute it |
| Windowing.KeptWithinBounds | api.py:150 | within the requested range, a year is kept exactly when it lies between the first and the last year that a full window and the series' length admit |
| Windowing.YearsBetweenStep | api.py:145-151 | advancing by one year extends the kept years by that year exactly when it lies between the first and last kept year |
| Windowing.YearsBetweenExtend | api.py:145-151 | a range of consecutive years extends by its last year |
| Windowing.KeptStep | api.py:145-151 | one pass of the loop appends the year exactly when the code's test keeps it |
| Windowing.KeptBeforeEnd | api.py:145 | once the loop has passed `end_year`, the appended years are all the kept years |
| Windowing.SmoothedExtend | api.py:150-154 | appending a year appends its window value |
| Windowing.TransformData | api.py:136-156 | the loop over the range returns the kept years with their moving averages, or fails with `ZeroWindow` at the first kept year when the window is 0 |
| Windowing.TransformOutcome | api.py:145-154 | the only failure is a zero window with at least one kept year, and `([], [])` is returned exactly when no year of the range is kept |
| Windowing.TransformYears | api.py:145-151 | `xvals` and `yvals` have equal length; `xvals` rises by one; each year lies in `[start_year, end_year]` and in `[data.start_year + ma - 1, data.start_year + len(values) - 1]`; a year appears exactly when the code's test keeps it |
| Windowing.WindowValueIsMean | api.py:153-154 | a window of at least one year ending inside the series covers exactly `ma` values, and its value is their mean |
| Windowing.TransformWindowMeans | api.py:150-154 | with `ma >= 1` the transform succeeds and each `y` is the mean of the `ma` in-bounds yearly values ending at its year |
| Windowing.UnitWindowValue | api.py:153-154 | a one-year window's value is the value at that index |
| Windowing.TransformUnitWindow | api.py:150-154 | with `ma == 1` the kept years are the range clipped to the series, and each `y` is `values[year - start_year]` |
| Windowing.UnitWindowWholeSeries | api.py:150-154 | a one-year window over the whole span of a series with one value per year returns every value with its year |
| Windowing.TransformIgnoresEndYear | api.py:147-150 | the result does not depend on the series' `end_year` |
| Windowing.ThreeYearWindow | test/api_test.py:57-68 | six values from 2015 with a window of 3 over 2017 to 2020 give [12.0, 14.0, 16.0, 18.0] |
| Windowing.FourYearWindow | test/api_test.py:70-81 | seven values from 2010 with a window of 4 over 2013 to 2016 give [8.0, 10.0, 12.0, 14.0] |
| Windowing.TwoYearWindow | test/api_test.py:83-94 | four values from 2018 with a window of 2 over 2019 to 2021 give [22.5, 27.5, 32.5] |
| Windowing.WindowWiderThanSeries | test/api_test.py:96-107 | a window of 5 over four values keeps no year: `([], [])` |
| Windowing.AggregateThenUnitWindow | api.py:127-154 | a date-sorted archive with no missing year, aggregated and then windowed over its whole span with `ma == 1`, returns every yearly mean paired with year `start_year + k`, that mean being over exactly the readings dated in that year |
| Windowing.NonPositiveWindowKeepsEarlierYears | api.py:150-154 | as written, a window of -1 keeps two years before the series and takes values from its far end, and a window of 0 divides by zero |
| Windowing.TransformValidWindowInSeries | api.py:150-154 | with windows below one year refused, refusal is the only failure and every kept year lies inside the series |

## Left out

- The HTTP requests to the geocoding service and to the open-meteo archive, the error
  strings built around them, and the date clamp in the request URL (api.py:21-81). These
  are network I/O. The aggregation starts from the `dates` and `values` the archive
  returned.
- The first `change_indexes` loop (api.py:96-100). It is dead: in the single-year branch
  its result is never read, and otherwise line 108 overwrites it before any use.
- The units' display strings. The model's `Units` has three values instead. The source's
  degree-sign literal is mis-encoded in the file, and only the choice among three units
  matters.
- `stats.py` (a wrapper over a foreign linear-regression routine), `main.py` (browser
  plotting), `app.py` (HTTP routing) and the JavaScript files. The JavaScript
  `getParameterName` duplicates `get_parameter_name` and is covered by it.
- Floating point. Readings and means are exact reals, so rounding in `sum` and in the
  division is not modelled.
- Text.ParseInt: accepts ASCII decimal digits only. Python's `int` also accepts a sign,
  surrounding whitespace, underscores between digits and non-ASCII digits. A four-character
  prefix of an ISO date is plain digits.
- Aggregation.GetAnnualSeries: requires as many readings as dates. The archive returns
  one reading per date. With a different count, the code would cut the readings at
  positions computed from the dates, which this model does not follow.
- The single-year branch's `if values else 0` guard (api.py:104). It is unreachable:
  one distinct year means at least one date, hence at least one reading.
- Zero substitution writes the integer `0` into the list. The model writes the real 0,
  which `sum` treats the same.
- The `data` argument of `transform_data` is a dictionary. The model passes the
  `AnnualSeries` record that the aggregation produces; `transform_data` reads only its
  `start_year` and `values`.

## Findings

| source | as written | input that shows it | evidently intended | confidence | as-written member | corrected member |
|---|---|---|---|---|---|---|
| api.py:150-154 | the guard `index >= moving_average - 1` lets a window of 0 or less through: with 0 the loop divides by zero at the first kept year; with a negative window it keeps years before the series and sums a slice taken from the series' far end | series from 2015 with values [10.0, 20.0], range 2013-2016, `moving_average` -1: years [2013, 2014, 2015, 2016] with values [-10.0, 0.0, 0.0, 0.0]; range 2014-2016, `moving_average` 0: ZeroDivisionError | a window of at least one year, so every kept year lies inside the series and no division by zero is possible | not executed; medium (the front end may never send a window below 1) | Windowing.NonPositiveWindowKeepsEarlierYears | Windowing.TransformValidWindow (property: Windowing.TransformValidWindowInSeries) |
