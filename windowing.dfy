/** The windowing step (`transform_data`): for each year of a requested range, the
    moving average of the yearly series over a window ending at that year. */
module Windowing {
  import opened Wrappers
  import opened SeqMath
  import opened Text
  import opened Aggregation

  /** The paired lists `(xvals, yvals)`: the kept years and their smoothed values. */
  datatype WindowedSeries = WindowedSeries(xvals: seq<int>, yvals: seq<real>)

  datatype TransformError =
    | ZeroWindow     // `moving_sum / 0` raises ZeroDivisionError
    | InvalidWindow  // a window below one year, refused by `TransformValidWindow` only

  function Max(a: int, b: int): int
  {
    if a < b then b else a
  }

  function Min(a: int, b: int): int
  {
    if a < b then a else b
  }

  /** The code's test for keeping `year`: enough earlier years for a full window, and
      the year itself inside the series. The series' `endYear` plays no part. */
  predicate Kept(data: AnnualSeries, year: int, movingAverage: int)
  {
    var index := year - data.startYear;
    index >= movingAverage - 1 && index < |data.values|
  }

  /** The smoothed value at `index`: `sum(values[index - m + 1 : index + 1]) / m`, with
      Python's slice. */
  function WindowValue(values: seq<real>, index: int, movingAverage: int): real
    requires movingAverage != 0
  {
    Sum(PySlice(values, index - movingAverage + 1, index + 1)) / (movingAverage as real)
  }

  /** The consecutive years `lo, lo + 1, ..., hi`; empty when `hi < lo`. */
  function YearsBetween(lo: int, hi: int): seq<int>
  {
    if hi < lo then [] else seq(hi - lo + 1, k requires 0 <= k <= hi - lo => lo + k)
  }

  lemma YearsBetweenExtend(lo: int, hi: int)
    requires lo <= hi
    ensures YearsBetween(lo, hi) == YearsBetween(lo, hi - 1) + [hi]
  {
  }

  /** Advancing the loop by one year extends the kept years by that year exactly when
      it lies between the first and last kept year. */
  lemma YearsBetweenStep(lo: int, hi: int, year: int)
    ensures lo <= year <= hi ==>
      YearsBetween(lo, Min(hi, year)) == YearsBetween(lo, Min(hi, year - 1)) + [year]
    ensures !(lo <= year <= hi) ==>
      YearsBetween(lo, Min(hi, year)) == YearsBetween(lo, Min(hi, year - 1))
  {
    if lo <= year <= hi {
      YearsBetweenExtend(lo, year);
    }
  }

  /** The first and last year of the range that `Kept` admits. */
  function FirstKept(data: AnnualSeries, startYear: int, movingAverage: int): int
  {
    Max(startYear, data.startYear + movingAverage - 1)
  }

  function LastKept(data: AnnualSeries, endYear: int): int
  {
    Min(endYear, data.startYear + |data.values| - 1)
  }

  /** Within the requested range, a year is kept exactly when it lies between the first
      and the last kept year. */
  lemma KeptWithinBounds(data: AnnualSeries, startYear: int, endYear: int, movingAverage: int, year: int)
    requires startYear <= year <= endYear
    ensures Kept(data, year, movingAverage) <==>
      FirstKept(data, startYear, movingAverage) <= year <= LastKept(data, endYear)
  {
  }

  /** The years of the range that the code has kept before reaching `year`. */
  function KeptBefore(data: AnnualSeries, startYear: int, endYear: int, movingAverage: int, year: int): seq<int>
  {
    YearsBetween(FirstKept(data, startYear, movingAverage), Min(LastKept(data, endYear), year - 1))
  }

  /** One step of the loop: `year` is appended exactly when the code keeps it. */
  lemma KeptStep(data: AnnualSeries, startYear: int, endYear: int, movingAverage: int, year: int)
    requires startYear <= year <= endYear
    ensures Kept(data, year, movingAverage) ==>
      KeptBefore(data, startYear, endYear, movingAverage, year + 1) ==
      KeptBefore(data, startYear, endYear, movingAverage, year) + [year]
    ensures !Kept(data, year, movingAverage) ==>
      KeptBefore(data, startYear, endYear, movingAverage, year + 1) ==
      KeptBefore(data, startYear, endYear, movingAverage, year)
  {
    KeptWithinBounds(data, startYear, endYear, movingAverage, year);
    YearsBetweenStep(FirstKept(data, startYear, movingAverage), LastKept(data, endYear), year);
  }

  /** Once the loop has passed `endYear`, the kept years are all of `Transform`'s. */
  lemma KeptBeforeEnd(data: AnnualSeries, startYear: int, endYear: int, movingAverage: int, year: int)
    requires year == endYear + 1 || (year == startYear && endYear < startYear)
    ensures KeptBefore(data, startYear, endYear, movingAverage, year) ==
      YearsBetween(FirstKept(data, startYear, movingAverage), LastKept(data, endYear))
  {
  }

  /** The smoothed value of each of `years`. */
  function Smoothed(data: AnnualSeries, years: seq<int>, movingAverage: int): seq<real>
    requires movingAverage != 0
  {
    seq(|years|, k requires 0 <= k < |years| =>
      WindowValue(data.values, years[k] - data.startYear, movingAverage))
  }

  lemma SmoothedExtend(data: AnnualSeries, years: seq<int>, year: int, movingAverage: int)
    requires movingAverage != 0
    ensures Smoothed(data, years + [year], movingAverage) ==
      Smoothed(data, years, movingAverage) + [WindowValue(data.values, year - data.startYear, movingAverage)]
  {
  }

  /** The windowed series: the kept years of `[startYear, endYear]`, which form one
      unbroken range, each with its smoothed value. A zero window fails at the first
      kept year; with no kept year the result is empty whatever the window. */
  function Transform(data: AnnualSeries, startYear: int, endYear: int, movingAverage: int)
    : Result<WindowedSeries, TransformError>
  {
    var years := YearsBetween(FirstKept(data, startYear, movingAverage), LastKept(data, endYear));
    if years == [] then Ok(WindowedSeries([], []))
    else if movingAverage == 0 then Err(ZeroWindow)
    else Ok(WindowedSeries(years, Smoothed(data, years, movingAverage)))
  }

  /** The loop over `range(start_year, end_year + 1)` that appends each kept year and
      its moving average. */
  method TransformData(data: AnnualSeries, startYear: int, endYear: int, movingAverage: int)
    returns (r: Result<WindowedSeries, TransformError>)
    ensures r == Transform(data, startYear, endYear, movingAverage)
  {
    var xvals: seq<int> := [];
    var yvals: seq<real> := [];
    var year := startYear;
    while year <= endYear
      invariant startYear <= year && (year <= endYear + 1 || year == startYear)
      invariant xvals == KeptBefore(data, startYear, endYear, movingAverage, year)
      invariant movingAverage == 0 ==> xvals == [] && yvals == []
      invariant movingAverage != 0 ==> yvals == Smoothed(data, xvals, movingAverage)
      decreases endYear - year
    {
      var index := year - data.startYear;
      KeptStep(data, startYear, endYear, movingAverage, year);
      if index >= movingAverage - 1 && index < |data.values| {
        ghost var before := xvals;
        xvals := xvals + [year];
        if movingAverage == 0 {
          return Err(ZeroWindow);
        }
        var movingSum := Sum(PySlice(data.values, index - movingAverage + 1, index + 1));
        ghost var value := WindowValue(data.values, index, movingAverage);
        assert movingSum / (movingAverage as real) == value;
        SmoothedExtend(data, before, year, movingAverage);
        assert Smoothed(data, xvals, movingAverage) == Smoothed(data, before, movingAverage) + [value];
        yvals := yvals + [movingSum / (movingAverage as real)];
      }
      year := year + 1;
    }
    KeptBeforeEnd(data, startYear, endYear, movingAverage, year);
    return Ok(WindowedSeries(xvals, yvals));
  }

  // ----- Properties of the windowing

  /** The only failure is a zero window with at least one kept year; an empty result
      means no year of the range is kept. */
  lemma TransformOutcome(data: AnnualSeries, startYear: int, endYear: int, movingAverage: int)
    ensures Transform(data, startYear, endYear, movingAverage).Err? <==>
      movingAverage == 0 && exists y :: startYear <= y <= endYear && Kept(data, y, movingAverage)
    ensures Transform(data, startYear, endYear, movingAverage) == Ok(WindowedSeries([], [])) <==>
      forall y :: startYear <= y <= endYear ==> !Kept(data, y, movingAverage)
  {
    var lo, hi := FirstKept(data, startYear, movingAverage), LastKept(data, endYear);
    if lo <= hi {
      assert Kept(data, lo, movingAverage);
      assert YearsBetween(lo, hi) != [] by {
        assert YearsBetween(lo, hi)[0] == lo;
      }
    } else {
      forall y | startYear <= y <= endYear
        ensures !Kept(data, y, movingAverage)
      {
      }
    }
  }

  /** The kept years are paired one to one with values, run without a gap, lie in the
      requested range and in the range the series can fill, and are exactly the years
      of `[startYear, endYear]` that the code keeps. */
  lemma TransformYears(data: AnnualSeries, startYear: int, endYear: int, movingAverage: int)
    requires Transform(data, startYear, endYear, movingAverage).Ok?
    ensures var w := Transform(data, startYear, endYear, movingAverage).value;
      |w.xvals| == |w.yvals| &&
      (forall k | 0 < k < |w.xvals| :: w.xvals[k] == w.xvals[k - 1] + 1) &&
      (forall k | 0 <= k < |w.xvals| ::
        startYear <= w.xvals[k] <= endYear &&
        data.startYear + movingAverage - 1 <= w.xvals[k] <= data.startYear + |data.values| - 1) &&
      (forall y :: y in w.xvals <==> startYear <= y <= endYear && Kept(data, y, movingAverage))
  {
    var lo, hi := FirstKept(data, startYear, movingAverage), LastKept(data, endYear);
    var w := Transform(data, startYear, endYear, movingAverage).value;
    if lo <= hi {
      forall y | startYear <= y <= endYear && Kept(data, y, movingAverage)
        ensures y in w.xvals
      {
        assert w.xvals[y - lo] == y;
      }
    }
  }

  /** A window of at least one year ending inside the series covers exactly
      `movingAverage` values of it, and its smoothed value is their mean. */
  lemma WindowValueIsMean(values: seq<real>, index: int, movingAverage: int)
    requires movingAverage >= 1
    requires movingAverage - 1 <= index < |values|
    ensures |values[index - movingAverage + 1..index + 1]| == movingAverage
    ensures WindowValue(values, index, movingAverage) == Mean(values[index - movingAverage + 1..index + 1])
  {
    PySliceInBounds(values, index - movingAverage + 1, index + 1);
  }

  /** `value` is the mean of the `movingAverage` yearly values, all inside the series,
      that end at `year`. */
  ghost predicate IsWindowMean(data: AnnualSeries, year: int, value: real, movingAverage: int)
    requires movingAverage >= 1
  {
    var index := year - data.startYear;
    0 <= index - movingAverage + 1 && index < |data.values| &&
    value == Mean(data.values[index - movingAverage + 1..index + 1])
  }

  /** With a window of at least one year, each value is the mean of exactly
      `movingAverage` yearly values, all inside the series, ending at the kept year. */
  lemma TransformWindowMeans(data: AnnualSeries, startYear: int, endYear: int, movingAverage: int)
    requires movingAverage >= 1
    ensures Transform(data, startYear, endYear, movingAverage).Ok?
    ensures var w := Transform(data, startYear, endYear, movingAverage).value;
      |w.xvals| == |w.yvals| &&
      forall k | 0 <= k < |w.yvals| :: IsWindowMean(data, w.xvals[k], w.yvals[k], movingAverage)
  {
    var lo, hi := FirstKept(data, startYear, movingAverage), LastKept(data, endYear);
    var years := YearsBetween(lo, hi);
    if years != [] {
      var w := Transform(data, startYear, endYear, movingAverage).value;
      assert w.xvals == years && w.yvals == Smoothed(data, years, movingAverage);
      forall k | 0 <= k < |w.yvals|
        ensures IsWindowMean(data, w.xvals[k], w.yvals[k], movingAverage)
      {
        assert w.xvals[k] == lo + k <= hi;
        WindowValueIsMean(data.values, w.xvals[k] - data.startYear, movingAverage);
      }
    }
  }

  /** A one-year window reproduces the yearly series, restricted to the years of the
      range that the series covers. */
  lemma TransformUnitWindow(data: AnnualSeries, startYear: int, endYear: int)
    ensures Transform(data, startYear, endYear, 1).Ok?
    ensures var w := Transform(data, startYear, endYear, 1).value;
      w.xvals == YearsBetween(Max(startYear, data.startYear), Min(endYear, data.startYear + |data.values| - 1)) &&
      |w.yvals| == |w.xvals| &&
      forall k | 0 <= k < |w.yvals| ::
        0 <= w.xvals[k] - data.startYear < |data.values| &&
        w.yvals[k] == data.values[w.xvals[k] - data.startYear]
  {
    var lo, hi := FirstKept(data, startYear, 1), LastKept(data, endYear);
    assert lo == Max(startYear, data.startYear);
    var years := YearsBetween(lo, hi);
    if years != [] {
      var w := Transform(data, startYear, endYear, 1).value;
      assert w.xvals == years && w.yvals == Smoothed(data, years, 1);
      forall k | 0 <= k < |w.yvals|
        ensures 0 <= w.xvals[k] - data.startYear < |data.values|
        ensures w.yvals[k] == data.values[w.xvals[k] - data.startYear]
      {
        assert w.xvals[k] == lo + k <= hi;
        UnitWindowValue(data.values, w.xvals[k] - data.startYear);
      }
    }
  }

  /** A one-year window ending at `index` is the value at `index`. */
  lemma UnitWindowValue(values: seq<real>, index: int)
    requires 0 <= index < |values|
    ensures WindowValue(values, index, 1) == values[index]
  {
    PySliceInBounds(values, index, index + 1);
    assert values[index..index + 1] == [values[index]];
    assert Sum([values[index]]) == values[index] by {
      assert [values[index]][..0] == [];
    }
  }

  /** The result does not depend on the series' `endYear`: only the number of values
      bounds the kept years. */
  lemma TransformIgnoresEndYear(data: AnnualSeries, startYear: int, endYear: int, movingAverage: int, other: int)
    ensures Transform(data.(endYear := other), startYear, endYear, movingAverage) ==
      Transform(data, startYear, endYear, movingAverage)
  {
  }

  // ----- The recorded scenarios

  /** Six values from 2015, years 2017 to 2020, a three-year window. */
  lemma ThreeYearWindow()
    ensures Transform(AnnualSeries(2015, 2020, [10.0, 12.0, 14.0, 16.0, 18.0, 20.0], Celsius), 2017, 2020, 3)
         == Ok(WindowedSeries([2017, 2018, 2019, 2020], [12.0, 14.0, 16.0, 18.0]))
  {
    var values := [10.0, 12.0, 14.0, 16.0, 18.0, 20.0];
    var data := AnnualSeries(2015, 2020, values, Celsius);
    var years := YearsBetween(2017, 2020);
    assert years == [2017, 2018, 2019, 2020];
    SumOfThree(10.0, 12.0, 14.0);
    SumOfThree(12.0, 14.0, 16.0);
    SumOfThree(14.0, 16.0, 18.0);
    SumOfThree(16.0, 18.0, 20.0);
    assert values[0..3] == [10.0, 12.0, 14.0];
    assert values[1..4] == [12.0, 14.0, 16.0];
    assert values[2..5] == [14.0, 16.0, 18.0];
    assert values[3..6] == [16.0, 18.0, 20.0];
    assert Smoothed(data, years, 3) == [12.0, 14.0, 16.0, 18.0];
  }

  /** Seven values from 2010, years 2013 to 2016, a four-year window. */
  lemma FourYearWindow()
    ensures Transform(AnnualSeries(2010, 2016, [5.0, 7.0, 9.0, 11.0, 13.0, 15.0, 17.0], Celsius), 2013, 2016, 4)
         == Ok(WindowedSeries([2013, 2014, 2015, 2016], [8.0, 10.0, 12.0, 14.0]))
  {
    var values := [5.0, 7.0, 9.0, 11.0, 13.0, 15.0, 17.0];
    var data := AnnualSeries(2010, 2016, values, Celsius);
    var years := YearsBetween(2013, 2016);
    assert years == [2013, 2014, 2015, 2016];
    SumOfFour(5.0, 7.0, 9.0, 11.0);
    SumOfFour(7.0, 9.0, 11.0, 13.0);
    SumOfFour(9.0, 11.0, 13.0, 15.0);
    SumOfFour(11.0, 13.0, 15.0, 17.0);
    assert values[0..4] == [values[0], values[1], values[2], values[3]];
    assert values[1..5] == [values[1], values[2], values[3], values[4]];
    assert values[2..6] == [values[2], values[3], values[4], values[5]];
    assert values[3..7] == [values[3], values[4], values[5], values[6]];
    assert Smoothed(data, years, 4) == [8.0, 10.0, 12.0, 14.0];
  }

  /** A two-year window over four values from 2018, years 2019 to 2021. */
  lemma TwoYearWindow()
    ensures Transform(AnnualSeries(2018, 2021, [20.0, 25.0, 30.0, 35.0], Celsius), 2019, 2021, 2)
         == Ok(WindowedSeries([2019, 2020, 2021], [22.5, 27.5, 32.5]))
  {
    var values := [20.0, 25.0, 30.0, 35.0];
    var data := AnnualSeries(2018, 2021, values, Celsius);
    var years := YearsBetween(2019, 2021);
    assert years == [2019, 2020, 2021];
    SumPair(20.0, 25.0);
    SumPair(25.0, 30.0);
    SumPair(30.0, 35.0);
    assert values[0..2] == [20.0, 25.0];
    assert values[1..3] == [25.0, 30.0];
    assert values[2..4] == [30.0, 35.0];
    assert Smoothed(data, years, 2) == [22.5, 27.5, 32.5];
  }

  /** A five-year window over four values keeps no year. */
  lemma WindowWiderThanSeries()
    ensures Transform(AnnualSeries(2012, 2015, [15.0, 30.0, 45.0, 60.0], Celsius), 2012, 2015, 5)
         == Ok(WindowedSeries([], []))
  {
  }

  // ----- The windowing after the aggregation

  /** A one-year window over the whole span of a yearly series with one value per year
      returns every value, each with its year. */
  lemma UnitWindowWholeSeries(s: AnnualSeries)
    requires |s.values| == s.endYear - s.startYear
    ensures Transform(s, s.startYear, s.endYear - 1, 1) ==
      Ok(WindowedSeries(YearsBetween(s.startYear, s.endYear - 1), s.values))
  {
    var lo, hi := s.startYear, s.endYear - 1;
    var years := YearsBetween(lo, hi);
    assert FirstKept(s, lo, 1) == lo && LastKept(s, hi) == hi;
    assert |years| == |s.values|;
    assert Smoothed(s, years, 1) == s.values by {
      forall k | 0 <= k < |s.values|
        ensures Smoothed(s, years, 1)[k] == s.values[k]
      {
        assert years[k] == lo + k;
        UnitWindowValue(s.values, k);
      }
    }
  }

  /** On a sorted daily archive with no missing year, a one-year window over the whole
      span of the yearly series returns every yearly mean, each with its year: value
      number `k` is paired with year `startYear + k` and is the mean of exactly the
      readings dated in that year. */
  lemma AggregateThenUnitWindow(dates: seq<string>, readings: seq<real>, parameter: string)
    requires |dates| == |readings| > 0
    requires ConsecutiveYears(Years(dates))
    requires ParseInt(YearPrefix(dates[0])).Some?
    ensures Aggregate(dates, readings, parameter).Ok?
    ensures var s := Aggregate(dates, readings, parameter).value;
      Transform(s, s.startYear, s.endYear - 1, 1) ==
        Ok(WindowedSeries(YearsBetween(s.startYear, s.endYear - 1), s.values))
    ensures var s := Aggregate(dates, readings, parameter).value;
      var w := Transform(s, s.startYear, s.endYear - 1, 1).value;
      var cuts := ChangeIndexes(Years(dates));
      |w.xvals| == |w.yvals| && RunMeans(w.yvals, readings, cuts) &&
      forall k: nat | k < |w.xvals| ::
        w.xvals[k] == s.startYear + k && RunHoldsYear(Years(dates), cuts, k, s.startYear)
  {
    AggregateConsecutiveYears(dates, readings, parameter);
    var s := Aggregate(dates, readings, parameter).value;
    UnitWindowWholeSeries(s);
  }

  // ----- A window below one year

  /** As written, a window of zero or fewer years keeps years before the first year of
      the series: with a window of -1 the test `index >= moving_average - 1` admits the
      indexes -2 and -1, and Python's negative slice bounds then pick values from the
      far end of the list. A window of 0 keeps index -1 and divides by zero. */
  lemma NonPositiveWindowKeepsEarlierYears()
    ensures Transform(AnnualSeries(2015, 2017, [10.0, 20.0], Celsius), 2013, 2016, -1)
         == Ok(WindowedSeries([2013, 2014, 2015, 2016], [-10.0, 0.0, 0.0, 0.0]))
    ensures Transform(AnnualSeries(2015, 2017, [10.0, 20.0], Celsius), 2014, 2016, 0) == Err(ZeroWindow)
  {
    var data := AnnualSeries(2015, 2017, [10.0, 20.0], Celsius);
    var years := YearsBetween(2013, 2016);
    assert years == [2013, 2014, 2015, 2016];
    assert PySlice(data.values, 0, -1) == [10.0];
    assert Sum([10.0]) == 10.0 by {
      assert [10.0][..0] == [];
    }
    assert Smoothed(data, years, -1) == [-10.0, 0.0, 0.0, 0.0];
  }

  /** The windowing with the window checked first: a window below one year is refused
      instead of reaching into years before the series or dividing by zero. */
  function TransformValidWindow(data: AnnualSeries, startYear: int, endYear: int, movingAverage: int)
    : Result<WindowedSeries, TransformError>
  {
    if movingAverage < 1 then Err(InvalidWindow)
    else Transform(data, startYear, endYear, movingAverage)
  }

  /** With the window checked, the only failure is the refused window, and every kept
      year lies inside the series, so no value outside it is ever read. */
  lemma TransformValidWindowInSeries(data: AnnualSeries, startYear: int, endYear: int, movingAverage: int)
    ensures TransformValidWindow(data, startYear, endYear, movingAverage).Err? <==> movingAverage < 1
    ensures TransformValidWindow(data, startYear, endYear, movingAverage).Ok? ==>
      var w := TransformValidWindow(data, startYear, endYear, movingAverage).value;
      forall k | 0 <= k < |w.xvals| ::
        data.startYear <= w.xvals[k] < data.startYear + |data.values|
  {
    if movingAverage >= 1 {
      TransformOutcome(data, startYear, endYear, movingAverage);
      TransformYears(data, startYear, endYear, movingAverage);
    }
  }
}
