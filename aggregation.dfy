/** The reduction of a daily series to one mean per calendar year, with the first year,
    the exclusive last year and the units (the part of `get_weather_data` after the
    archive has answered). */
module Aggregation {
  import opened Wrappers
  import opened SeqMath
  import opened Text

  /** The three units the parameter catalogue uses: degrees Celsius, mm/day, km/hr. */
  datatype Units = Celsius | MillimetresPerDay | KilometresPerHour

  /** The yearly series: `values[i]` belongs to year `startYear + i`, and `endYear` is
      one past the year of the last daily reading. */
  datatype AnnualSeries = AnnualSeries(startYear: int, endYear: int, values: seq<real>, units: Units)

  datatype AggregateError =
    | EmptyInput                   // `sum([]) / len([])` raises ZeroDivisionError
    | MalformedDate(prefix: string)  // `int(prefix)` raises ValueError

  // ----- Missing readings

  /** The readings once every missing one (`None`) counts as 0. */
  function ZeroFilled(readings: seq<Option<real>>): (r: seq<real>)
    ensures |r| == |readings|
  {
    if |readings| == 0 then []
    else
      var last := match readings[|readings| - 1] case None => 0.0 case Some(v) => v;
      ZeroFilled(readings[..|readings| - 1]) + [last]
  }

  /** Zero substitution replaces exactly the missing readings by 0 and keeps every
      present reading where it was. */
  lemma {:induction false} ZeroFilledExact(readings: seq<Option<real>>)
    ensures forall i | 0 <= i < |readings| ::
      (readings[i].None? ==> ZeroFilled(readings)[i] == 0.0) &&
      (readings[i].Some? ==> ZeroFilled(readings)[i] == readings[i].value)
  {
    if |readings| > 0 {
      ZeroFilledExact(readings[..|readings| - 1]);
    }
  }

  /** The loop that overwrites each `None` in the fetched list with 0, in place. */
  method ReplaceMissing(values: array<Option<real>>)
    modifies values
    ensures forall i | 0 <= i < values.Length :: values[i] == Some(ZeroFilled(old(values[..]))[i])
  {
    ghost var original := values[..];
    ZeroFilledExact(original);
    for i := 0 to values.Length
      invariant forall k | 0 <= k < i :: values[k] == Some(ZeroFilled(original)[k])
      invariant forall k | i <= k < values.Length :: values[k] == original[k]
    {
      if values[i] == None {
        values[i] := Some(0.0);
      }
    }
  }

  // ----- Runs of equal year

  /** The year prefix of every date, in order. */
  function Years(dates: seq<string>): (years: seq<string>)
    ensures |years| == |dates|
  {
    seq(|dates|, i requires 0 <= i < |dates| => YearPrefix(dates[i]))
  }

  /** The positions `i` in `1 .. m - 1` at which the year differs from the one before,
      in increasing order. */
  function ChangesBefore(years: seq<string>, m: nat): seq<nat>
    requires m <= |years|
  {
    if m <= 1 then []
    else ChangesBefore(years, m - 1) + (if years[m - 1] != years[m - 2] then [m - 1] else [])
  }

  /** The cut points of the series: 0, every position where the year changes, and the
      length. Consecutive cut points delimit one run of equal year. */
  function ChangeIndexes(years: seq<string>): seq<nat>
  {
    [0] + ChangesBefore(years, |years|) + [|years|]
  }

  /** The year changes are exactly the positions whose year differs from the previous
      one, listed in strictly increasing order. */
  lemma {:induction false} ChangesBeforeExact(years: seq<string>, m: nat)
    requires m <= |years|
    ensures forall j | 0 <= j < |ChangesBefore(years, m)| :: 1 <= ChangesBefore(years, m)[j] < m
    ensures forall a, b | 0 <= a < b < |ChangesBefore(years, m)| ::
      ChangesBefore(years, m)[a] < ChangesBefore(years, m)[b]
    ensures forall i: nat :: i in ChangesBefore(years, m) <==> 1 <= i < m && years[i] != years[i - 1]
  {
    if m > 1 {
      ChangesBeforeExact(years, m - 1);
    }
  }

  predicate NonDecreasing(c: seq<nat>)
  {
    forall a, b | 0 <= a <= b < |c| :: c[a] <= c[b]
  }

  predicate Increasing(c: seq<nat>)
  {
    forall a, b | 0 <= a < b < |c| :: c[a] < c[b]
  }

  /** The cut points start at 0, end at the length and never decrease; for a non-empty
      series they strictly increase, so every run is non-empty. */
  lemma ChangeIndexesShape(years: seq<string>)
    ensures |ChangeIndexes(years)| >= 2
    ensures ChangeIndexes(years)[0] == 0
    ensures ChangeIndexes(years)[|ChangeIndexes(years)| - 1] == |years|
    ensures NonDecreasing(ChangeIndexes(years))
    ensures |years| > 0 ==> Increasing(ChangeIndexes(years))
  {
    ChangesBeforeExact(years, |years|);
  }

  /** The runs the cut points delimit are the maximal runs of equal year: each is
      non-empty, holds a single year, and differs in year from the run before it. */
  lemma ChangeIndexesAreMaximalRuns(years: seq<string>)
    requires |years| > 0
    ensures forall k | 0 <= k < |ChangeIndexes(years)| :: ChangeIndexes(years)[k] <= |years|
    ensures forall k | 0 <= k < |ChangeIndexes(years)| - 1 ::
      ChangeIndexes(years)[k] < ChangeIndexes(years)[k + 1]
    ensures forall k, j | 0 <= k < |ChangeIndexes(years)| - 1 &&
                          ChangeIndexes(years)[k] <= j < ChangeIndexes(years)[k + 1] ::
      years[j] == years[ChangeIndexes(years)[k]]
    ensures forall k | 0 < k < |ChangeIndexes(years)| - 1 ::
      0 < ChangeIndexes(years)[k] < |years| &&
      years[ChangeIndexes(years)[k]] != years[ChangeIndexes(years)[k] - 1]
  {
    var cuts := ChangeIndexes(years);
    var changes := ChangesBefore(years, |years|);
    ChangeIndexesShape(years);
    ChangesBeforeExact(years, |years|);
    forall k | 0 <= k < |cuts| - 1
      ensures forall j | cuts[k] <= j < cuts[k + 1] :: years[j] == years[cuts[k]]
    {
      forall j | cuts[k] < j < cuts[k + 1]
        ensures years[j] == years[j - 1]
      {
        assert j !in changes by {
          forall m | 0 <= m < |changes|
            ensures changes[m] != j
          {
            assert cuts[m + 1] == changes[m];
          }
        }
      }
      ConstantBetween(years, cuts[k], cuts[k + 1]);
    }
    forall k | 0 < k < |cuts| - 1
      ensures years[cuts[k]] != years[cuts[k] - 1]
    {
      assert cuts[k] == changes[k - 1];
    }
  }

  lemma {:induction false} ConstantBetween(years: seq<string>, lo: nat, hi: nat)
    requires lo < hi <= |years|
    requires forall j | lo < j < hi :: years[j] == years[j - 1]
    ensures forall j | lo <= j < hi :: years[j] == years[lo]
    decreases hi - lo
  {
    if hi - lo > 1 {
      ConstantBetween(years, lo, hi - 1);
      assert years[hi - 1] == years[hi - 2];
    }
  }

  /** When every prefix is the same, the year never changes. */
  lemma {:induction false} NoChangesInOneYear(years: seq<string>, m: nat)
    requires m <= |years|
    requires forall i | 0 <= i < |years| :: years[i] == years[0]
    ensures ChangesBefore(years, m) == []
  {
    if m > 1 {
      NoChangesInOneYear(years, m - 1);
    }
  }

  /** With one distinct year the series is a single run covering everything. */
  lemma SingleYearIsOneRun(years: seq<string>)
    requires |set y | y in years| == 1
    ensures |years| > 0
    ensures ChangeIndexes(years) == [0, |years|]
  {
    var distinct := set y | y in years;
    assert years[0] in distinct;
    forall i | 0 <= i < |years|
      ensures years[i] == years[0]
    {
      assert years[i] in distinct;
      if years[i] != years[0] {
        assert {years[0], years[i]} <= distinct;
        assert |{years[0], years[i]}| == 2;
        SubsetCardinality({years[0], years[i]}, distinct);
      }
    }
    NoChangesInOneYear(years, |years|);
  }

  lemma SubsetCardinality(a: set<string>, b: set<string>)
    requires a <= b
    ensures |a| <= |b|
  {
    assert b == a + (b - a);
  }

  /** The yearly means, as the code's run partition defines them: the mean of every
      run between consecutive cut points; an empty series has no runs to divide. */
  function AnnualMeans(years: seq<string>, readings: seq<real>): Result<seq<real>, AggregateError>
    requires |years| == |readings|
  {
    if |years| == 0 then Err(EmptyInput)
    else
      CutPointsAdjacent(years, ChangeIndexes(years));
      Ok(MeansBetween(readings, ChangeIndexes(years)))
  }

  /** The mean of every run between consecutive cut points. */
  function MeansBetween(readings: seq<real>, cuts: seq<nat>): seq<real>
    requires |cuts| >= 1
    requires forall k | 0 <= k < |cuts| - 1 :: cuts[k] < cuts[k + 1]
    requires forall k | 0 <= k < |cuts| :: cuts[k] <= |readings|
  {
    seq(|cuts| - 1, k requires 0 <= k < |cuts| - 1 => Mean(readings[cuts[k]..cuts[k + 1]]))
  }

  /** `ChangeIndexesShape`, stated for consecutive cut points only. */
  lemma CutPointsAdjacent(years: seq<string>, cuts: seq<nat>)
    requires cuts == ChangeIndexes(years)
    ensures |cuts| >= 2 && cuts[0] == 0 && cuts[|cuts| - 1] == |years|
    ensures forall k | 0 <= k < |cuts| - 1 :: cuts[k] <= cuts[k + 1]
    ensures forall k | 0 <= k < |cuts| :: cuts[k] <= |years|
    ensures |years| > 0 ==> forall k | 0 <= k < |cuts| - 1 :: cuts[k] < cuts[k + 1]
  {
    ChangeIndexesShape(years);
  }

  /** `set(years)`: the distinct year prefixes. */
  function DistinctYears(years: seq<string>): set<string>
  {
    set y | y in years
  }

  /** The code's special case for a single distinct year, the mean of the whole series,
      is what the general run partition gives too. */
  lemma SingleYearMean(years: seq<string>, readings: seq<real>)
    requires |years| == |readings|
    requires |DistinctYears(years)| == 1
    ensures |readings| > 0
    ensures AnnualMeans(years, readings) == Ok([Mean(readings)])
  {
    SingleYearIsOneRun(years);
    assert readings[ChangeIndexes(years)[0]..ChangeIndexes(years)[1]] == readings;
    var means := AnnualMeans(years, readings).value;
    assert |means| == 1 && means[0] == Mean(readings);
    assert means == [Mean(readings)];
  }

  /** The branch on the number of distinct years, then the loop over the cut points
      that averages each run. */
  method YearlyAverages(years: seq<string>, readings: seq<real>)
    returns (r: Result<seq<real>, AggregateError>)
    requires |years| == |readings|
    ensures r == AnnualMeans(years, readings)
  {
    if |DistinctYears(years)| == 1 {
      SingleYearMean(years, readings);
      assert Sum(readings) / (|readings| as real) == Mean(readings);
      return Ok([Sum(readings) / (|readings| as real)]);
    }
    var cuts := ChangeIndexes(years);
    CutPointsAdjacent(years, cuts);
    var averages: seq<real> := [];
    for k := 0 to |cuts| - 1
      invariant |averages| == k
      invariant forall j | 0 <= j < k ::
        cuts[j] < cuts[j + 1] && averages[j] == Mean(readings[cuts[j]..cuts[j + 1]])
    {
      var yearly := readings[cuts[k]..cuts[k + 1]];
      if |yearly| == 0 {
        assert |years| == 0;
        return Err(EmptyInput);
      }
      averages := averages + [Sum(yearly) / (|yearly| as real)];
    }
    assert cuts[0] < cuts[1];
    assert AnnualMeans(years, readings).Ok?;
    ghost var means := AnnualMeans(years, readings).value;
    assert |means| == |averages|;
    assert forall j | 0 <= j < |averages| :: averages[j] == means[j];
    assert averages == means;
    return Ok(averages);
  }

  // ----- Units

  /** The units of a parameter by its name: "temperature" wins over "sum", and every
      other parameter is a speed. */
  function UnitsFor(parameter: string): (u: Units)
    ensures u == Celsius <==> Occurs("temperature", parameter)
    ensures u == MillimetresPerDay <==> !Occurs("temperature", parameter) && Occurs("sum", parameter)
    ensures u == KilometresPerHour <==> !Occurs("temperature", parameter) && !Occurs("sum", parameter)
  {
    if Contains(parameter, "temperature") then Celsius
    else if Contains(parameter, "sum") then MillimetresPerDay
    else KilometresPerHour
  }

  // ----- The whole aggregation

  /** The yearly series of a daily series: means per run of equal year prefix, the
      first prefix as `startYear`, the last prefix plus one as `endYear`. The means are
      computed before either prefix is converted, so an empty series fails first. */
  function Aggregate(dates: seq<string>, readings: seq<real>, parameter: string)
    : Result<AnnualSeries, AggregateError>
    requires |dates| == |readings|
  {
    var years := Years(dates);
    match AnnualMeans(years, readings)
    case Err(e) => Err(e)
    case Ok(means) =>
      var first, last := ParseInt(years[0]), ParseInt(years[|years| - 1]);
      if first.None? then Err(MalformedDate(years[0]))
      else if last.None? then Err(MalformedDate(years[|years| - 1]))
      else Ok(AnnualSeries(first.value, last.value + 1, means, UnitsFor(parameter)))
  }

  /** The aggregation as the code runs it: overwrite missing readings in place, take
      the year prefixes, average the runs, pick the units, convert the first and last
      prefix. */
  method GetAnnualSeries(dates: seq<string>, values: array<Option<real>>, parameter: string)
    returns (r: Result<AnnualSeries, AggregateError>)
    requires values.Length == |dates|
    modifies values
    ensures forall i | 0 <= i < values.Length :: values[i] == Some(ZeroFilled(old(values[..]))[i])
    ensures r == Aggregate(dates, ZeroFilled(old(values[..])), parameter)
  {
    ghost var fetched := values[..];
    ReplaceMissing(values);
    var readings := seq(values.Length, i requires 0 <= i < values.Length && values[i].Some? reads values =>
                          values[i].value);
    assert readings == ZeroFilled(fetched);
    var years := seq(|dates|, i requires 0 <= i < |dates| => YearPrefix(dates[i]));
    assert years == Years(dates);
    var averaged := YearlyAverages(years, readings);
    if averaged.Err? {
      return Err(averaged.error);
    }
    var units := UnitsFor(parameter);
    var first := ParseInt(years[0]);
    if first.None? {
      return Err(MalformedDate(years[0]));
    }
    var last := ParseInt(years[|years| - 1]);
    if last.None? {
      return Err(MalformedDate(years[|years| - 1]));
    }
    return Ok(AnnualSeries(first.value, last.value + 1, averaged.value, units));
  }

  // ----- Properties of the aggregation

  /** `means` holds one entry per pair of consecutive cut points: the mean of the
      non-empty stretch of readings between them. */
  predicate RunMeans(means: seq<real>, readings: seq<real>, cuts: seq<nat>)
  {
    |means| == |cuts| - 1 &&
    forall k {:trigger means[k]} | 0 <= k < |means| ::
      cuts[k] < cuts[k + 1] && cuts[k + 1] <= |readings| &&
      means[k] == Mean(readings[cuts[k]..cuts[k + 1]])
  }

  /** The aggregation fails with `EmptyInput` exactly on an empty series, and succeeds
      exactly when the series is non-empty and its first and last prefixes are numbers. */
  lemma AggregateOutcome(dates: seq<string>, readings: seq<real>, parameter: string)
    requires |dates| == |readings|
    ensures Aggregate(dates, readings, parameter) == Err(EmptyInput) <==> |dates| == 0
    ensures Aggregate(dates, readings, parameter).Ok? <==>
      |dates| > 0 && ParseInt(YearPrefix(dates[0])).Some? &&
      ParseInt(YearPrefix(dates[|dates| - 1])).Some?
  {
  }

  /** A successful aggregation starts at the first date's year, ends one past the last
      date's year, has one mean per maximal run of equal year, each the mean of that
      run's zero-filled readings, and carries the units of the parameter name. */
  lemma AggregateResult(dates: seq<string>, readings: seq<real>, parameter: string)
    requires |dates| == |readings|
    requires Aggregate(dates, readings, parameter).Ok?
    ensures |dates| > 0
    ensures Aggregate(dates, readings, parameter).value.startYear == ParseInt(YearPrefix(dates[0])).value
    ensures Aggregate(dates, readings, parameter).value.endYear ==
      ParseInt(YearPrefix(dates[|dates| - 1])).value + 1
    ensures Aggregate(dates, readings, parameter).value.units == UnitsFor(parameter)
    ensures RunMeans(Aggregate(dates, readings, parameter).value.values, readings,
                     ChangeIndexes(Years(dates)))
  {
    AnnualMeansAreRunMeans(Years(dates), readings);
  }

  /** For a non-empty series the yearly means are the run means over the cut points. */
  lemma AnnualMeansAreRunMeans(years: seq<string>, readings: seq<real>)
    requires |years| == |readings| > 0
    ensures AnnualMeans(years, readings).Ok?
    ensures RunMeans(AnnualMeans(years, readings).value, readings, ChangeIndexes(years))
  {
    var cuts := ChangeIndexes(years);
    CutPointsAdjacent(years, cuts);
    var means := AnnualMeans(years, readings).value;
    assert |means| == |cuts| - 1;
  }

  /** A series whose dates all fall in one year yields a single mean, that of all its
      zero-filled readings, for the span `[year, year + 1)`. */
  lemma AggregateSingleYear(dates: seq<string>, readings: seq<real>, parameter: string, year: nat)
    requires |dates| == |readings| > 0
    requires forall i | 0 <= i < |dates| :: YearPrefix(dates[i]) == YearPrefix(dates[0])
    requires ParseInt(YearPrefix(dates[0])) == Some(year)
    ensures Aggregate(dates, readings, parameter) ==
      Ok(AnnualSeries(year, year + 1, [Mean(readings)], UnitsFor(parameter)))
  {
    var years := Years(dates);
    assert DistinctYears(years) == {years[0]} by {
      assert years[0] in DistinctYears(years);
    }
    SingleYearMean(years, readings);
    assert years[|years| - 1] == years[0];
    AggregateOfParts(dates, readings, parameter, [Mean(readings)], year, year);
  }

  /** `Aggregate` from its three parts: the run means and the first and last year. */
  lemma AggregateOfParts(dates: seq<string>, readings: seq<real>, parameter: string,
                         means: seq<real>, first: int, last: int)
    requires |dates| == |readings| > 0
    requires AnnualMeans(Years(dates), readings) == Ok(means)
    requires ParseInt(YearPrefix(dates[0])) == Some(first)
    requires ParseInt(YearPrefix(dates[|dates| - 1])) == Some(last)
    ensures Aggregate(dates, readings, parameter) ==
      Ok(AnnualSeries(first, last + 1, means, UnitsFor(parameter)))
  {
    var years := Years(dates);
    assert years[0] == YearPrefix(dates[0]);
    assert years[|years| - 1] == YearPrefix(dates[|dates| - 1]);
  }

  /** Each prefix repeats the one before or is the next calendar year, as in a daily
      archive sorted by date. */
  predicate ConsecutiveYears(years: seq<string>)
  {
    forall i | 1 <= i < |years| ::
      years[i] == years[i - 1] ||
      (ParseInt(years[i - 1]).Some? && ParseInt(years[i]).Some? &&
       ParseInt(years[i]).value == ParseInt(years[i - 1]).value + 1)
  }

  /** Along consecutive years, the number of year changes is the distance between the
      first and the current year. */
  lemma {:induction false} ChangesCountYears(years: seq<string>, m: nat)
    requires 1 <= m <= |years|
    requires ConsecutiveYears(years)
    requires ParseInt(years[0]).Some?
    ensures ParseInt(years[m - 1]).Some?
    ensures |ChangesBefore(years, m)| == ParseInt(years[m - 1]).value - ParseInt(years[0]).value
  {
    if m > 1 {
      ChangesCountYears(years, m - 1);
    }
  }

  /** The year changes found before `m` are the first of those found before any later
      bound `n`. */
  lemma {:induction false} ChangesBeforePrefix(years: seq<string>, m: nat, n: nat)
    requires m <= n <= |years|
    ensures ChangesBefore(years, m) <= ChangesBefore(years, n)
    decreases n - m
  {
    if m < n {
      ChangesBeforePrefix(years, m, n - 1);
    }
  }

  /** Position `j` lies in the run numbered by the year changes up to and including `j`. */
  lemma RunOfPosition(years: seq<string>, j: nat)
    requires j < |years|
    ensures |ChangesBefore(years, j + 1)| < |ChangeIndexes(years)| - 1
    ensures ChangeIndexes(years)[|ChangesBefore(years, j + 1)|] <= j
    ensures j < ChangeIndexes(years)[|ChangesBefore(years, j + 1)| + 1]
  {
    ChangesBeforePrefix(years, j + 1, |years|);
    RunStartsBefore(years, j);
    RunEndsAfter(years, j);
  }

  lemma RunStartsBefore(years: seq<string>, j: nat)
    requires j < |years|
    requires ChangesBefore(years, j + 1) <= ChangesBefore(years, |years|)
    ensures ChangeIndexes(years)[|ChangesBefore(years, j + 1)|] <= j
  {
    var pre := ChangesBefore(years, j + 1);
    var k := |pre|;
    if k > 0 {
      assert ChangeIndexes(years)[k] == pre[k - 1];
      ChangesBeforeExact(years, j + 1);
    }
  }

  lemma RunEndsAfter(years: seq<string>, j: nat)
    requires j < |years|
    requires ChangesBefore(years, j + 1) <= ChangesBefore(years, |years|)
    ensures j < ChangeIndexes(years)[|ChangesBefore(years, j + 1)| + 1]
  {
    var changes := ChangesBefore(years, |years|);
    var pre := ChangesBefore(years, j + 1);
    var k := |pre|;
    if k < |changes| {
      var c := changes[k];
      assert c !in pre by {
        ChangesBeforeExact(years, |years|);
        forall i | 0 <= i < k
          ensures pre[i] != c
        {
          assert pre[i] == changes[i];
        }
      }
      ChangeAfter(years, j, c);
      assert ChangeIndexes(years)[k + 1] == c;
    }
  }

  /** A year change of the whole series that is not among those up to `j` lies after `j`. */
  lemma ChangeAfter(years: seq<string>, j: nat, c: nat)
    requires j < |years|
    requires c in ChangesBefore(years, |years|)
    requires c !in ChangesBefore(years, j + 1)
    ensures j < c
  {
    ChangesBeforeExact(years, |years|);
    assert 1 <= c < |years| && years[c] != years[c - 1];
    ChangesBeforeExact(years, j + 1);
  }

  /** Run number `k` between the cut points holds exactly the positions whose prefix
      reads as the year `firstYear + k`. */
  predicate RunHoldsYear(years: seq<string>, cuts: seq<nat>, k: nat, firstYear: int)
    requires k + 1 < |cuts|
  {
    forall j | 0 <= j < |years| :: cuts[k] <= j < cuts[k + 1] <==> ParseInt(years[j]) == Some(firstYear + k)
  }

  /** Along consecutive years, run number `k` holds exactly the dates of the `k`-th year
      after the first. */
  lemma RunsAreYears(years: seq<string>)
    requires |years| > 0
    requires ConsecutiveYears(years)
    requires ParseInt(years[0]).Some?
    ensures forall k: nat | k < |ChangeIndexes(years)| - 1 ::
      RunHoldsYear(years, ChangeIndexes(years), k, ParseInt(years[0]).value)
  {
    var cuts := ChangeIndexes(years);
    var first := ParseInt(years[0]).value;
    ChangeIndexesShape(years);
    forall k: nat | k < |cuts| - 1
      ensures RunHoldsYear(years, cuts, k, first)
    {
      forall j | 0 <= j < |years|
        ensures cuts[k] <= j < cuts[k + 1] <==> ParseInt(years[j]) == Some(first + k)
      {
        RunOfPosition(years, j);
        ChangesCountYears(years, j + 1);
        var kj := |ChangesBefore(years, j + 1)|;
        if kj < k {
          assert cuts[kj + 1] <= cuts[k];
        } else if kj > k {
          assert cuts[k + 1] <= cuts[kj];
        }
      }
    }
  }

  /** On a sorted daily archive with no missing year the aggregation succeeds as soon
      as the first prefix is a number, and yields one mean per calendar year from
      `startYear` up to, not including, `endYear`: mean number `k` is the mean of
      exactly the readings dated in year `startYear + k`. */
  lemma AggregateConsecutiveYears(dates: seq<string>, readings: seq<real>, parameter: string)
    requires |dates| == |readings| > 0
    requires ConsecutiveYears(Years(dates))
    requires ParseInt(YearPrefix(dates[0])).Some?
    ensures Aggregate(dates, readings, parameter).Ok?
    ensures |Aggregate(dates, readings, parameter).value.values| ==
      Aggregate(dates, readings, parameter).value.endYear - Aggregate(dates, readings, parameter).value.startYear
    ensures RunMeans(Aggregate(dates, readings, parameter).value.values, readings, ChangeIndexes(Years(dates)))
    ensures forall k: nat | k < |Aggregate(dates, readings, parameter).value.values| ::
      RunHoldsYear(Years(dates), ChangeIndexes(Years(dates)), k, Aggregate(dates, readings, parameter).value.startYear)
  {
    var years := Years(dates);
    ChangesCountYears(years, |years|);
    AnnualMeansAreRunMeans(years, readings);
    var means := AnnualMeans(years, readings).value;
    var first, last := ParseInt(years[0]).value, ParseInt(years[|years| - 1]).value;
    AggregateOfParts(dates, readings, parameter, means, first, last);
    RunsAreYears(years);
  }

  /** Two years of daily maxima, one reading missing: two means, temperature units. */
  lemma TwoYearsOfTemperatures()
    ensures Aggregate(["2020-01-01", "2020-07-01", "2021-01-01", "2021-07-01"],
                      ZeroFilled([Some(10.0), None, Some(4.0), Some(6.0)]), "temperature_2m_max")
         == Ok(AnnualSeries(2020, 2022, [5.0, 5.0], Celsius))
  {
    var fetched := [Some(10.0), None, Some(4.0), Some(6.0)];
    var years := ["2020", "2020", "2021", "2021"];
    SampleYears();
    assert ZeroFilled(fetched) == [10.0, 0.0, 4.0, 6.0] by {
      ZeroFilledExact(fetched);
    }
    SampleMeans();
    ParseYearDigits("2020", 2020);
    ParseYearDigits("2021", 2021);
    assert UnitsFor("temperature_2m_max") == Celsius by {
      assert OccursAt("temperature", "temperature_2m_max", 0);
    }
  }

  /** The year prefixes of the two-year sample. */
  lemma SampleYears()
    ensures Years(["2020-01-01", "2020-07-01", "2021-01-01", "2021-07-01"])
         == ["2020", "2020", "2021", "2021"]
  {
    assert "2020-01-01"[..4] == "2020-07-01"[..4] == "2020";
    assert "2021-01-01"[..4] == "2021-07-01"[..4] == "2021";
  }

  /** The two runs of the two-year sample and their means. */
  lemma SampleMeans()
    ensures AnnualMeans(["2020", "2020", "2021", "2021"], [10.0, 0.0, 4.0, 6.0]) == Ok([5.0, 5.0])
  {
    var years := ["2020", "2020", "2021", "2021"];
    var readings := [10.0, 0.0, 4.0, 6.0];
    assert ChangesBefore(years, 2) == [];
    assert ChangesBefore(years, 4) == [2];
    var cuts := ChangeIndexes(years);
    assert cuts == [0, 2, 4];
    SumPair(10.0, 0.0);
    SumPair(4.0, 6.0);
    assert readings[0..2] == [10.0, 0.0] && readings[2..4] == [4.0, 6.0];
    assert Mean(readings[cuts[0]..cuts[1]]) == 5.0;
    assert Mean(readings[cuts[1]..cuts[2]]) == 5.0;
    assert AnnualMeans(years, readings).value == [5.0, 5.0];
  }

  /** A four-digit year prefix is read as the number it spells. */
  lemma ParseYearDigits(prefix: string, year: nat)
    requires |prefix| == 4 && AllDigits(prefix)
    requires year == 1000 * ((prefix[0] as int) - ('0' as int)) + 100 * ((prefix[1] as int) - ('0' as int))
                   + 10 * ((prefix[2] as int) - ('0' as int)) + ((prefix[3] as int) - ('0' as int))
    ensures ParseInt(prefix) == Some(year)
  {
    assert DigitsValue(prefix[..1]) == (prefix[0] as int) - ('0' as int) by {
      assert prefix[..1][..0] == [];
    }
    var d1, d2, d3 := (prefix[1] as int) - ('0' as int), (prefix[2] as int) - ('0' as int),
                      (prefix[3] as int) - ('0' as int);
    assert prefix[..2][..1] == prefix[..1];
    assert DigitsValue(prefix[..2]) == 10 * DigitsValue(prefix[..1]) + d1;
    assert prefix[..3][..2] == prefix[..2];
    assert DigitsValue(prefix[..3]) == 10 * DigitsValue(prefix[..2]) + d2;
    assert prefix[..3] == prefix[..|prefix| - 1];
    assert DigitsValue(prefix) == 10 * DigitsValue(prefix[..3]) + d3;
  }
}
