/** The per-timer summary: percentile slices computed from prefix sums, the overall
    figures, and the histogram. Each imperative step is proved against a direct
    specification on the sorted samples. */
module TimerMetrics {
  import opened JsStrings
  import opened Samples

  /** An entry of the summary. `Undefined` is what an array read outside its bounds gives,
      `NotANumber` the result of arithmetic on it, and `RootOf` an unevaluated square root. */
  datatype Field =
    | Number(x: real)
    | NotANumber
    | Undefined
    | RootOf(radicand: real)
    | Histogram(bins: map<string, nat>)

  type TimerData = map<string, Field>

  /** A configured percentile with the text JavaScript prints for it. */
  datatype Percent = Percent(value: real, text: string)

  /** The upper limit of a histogram bin; `Unbounded` is the configured string 'inf'. */
  datatype Limit = Below(bound: real, text: string) | Unbounded

  datatype BinRule = BinRule(metric: string, bins: seq<Limit>)

  type PositiveReal = x: real | x > 0.0 witness 1.0

  /** `kept` is the list of calculated metrics; the empty list filters nothing. */
  datatype Settings = Settings(
    percents: seq<Percent>,
    histogram: seq<BinRule>,
    interval: PositiveReal,
    kept: seq<string>)

  // ----- specification: percentile slices

  lemma ScaleIsNonNegative(a: real, n: nat)
    requires a >= 0.0
    ensures a * n as real >= 0.0
  {
  }

  lemma ScaleAtMost(a: real, n: nat)
    requires a <= 1.0
    ensures a * n as real <= n as real
  {
  }

  /** The number of samples a percentile selects out of n. */
  function SliceSize(pct: real, n: nat): nat
  {
    ScaleIsNonNegative(Abs(pct) / 100.0, n);
    Round(Abs(pct) / 100.0 * n as real)
  }

  /** The samples a percentile stands for: the k lowest when it is positive, otherwise the
      k highest. There is none when the code reads outside its prefix sums. */
  function Slice(s: seq<real>, pct: real): Option<seq<real>>
    requires s != []
  {
    var n, k := |s|, SliceSize(pct, |s|);
    if n == 1 then Some(s)
    else if pct > 0.0 then if k <= n then Some(s[..k]) else None
    else if k < n then Some(s[n - k..]) else None
  }

  function CleanPercent(text: string): string
  {
    ReplaceFirst(ReplaceFirst(text, '.', "_"), '-', "top")
  }

  /** The figures a percentile reports besides the size of its slice. */
  datatype Figures = Figures(mean: Field, boundary: Field, sum: Field, sumSquares: Field)

  function PutPercent(data: TimerData, p: Percent, count: nat, f: Figures): TimerData
  {
    var t := CleanPercent(p.text);
    var d1 := data["count_" + t := Number(count as real)];
    var d2 := d1["mean_" + t := f.mean];
    var d3 := d2[(if p.value > 0.0 then "upper_" else "lower_") + t := f.boundary];
    var d4 := d3["sum_" + t := f.sum];
    d4["sum_squares_" + t := f.sumSquares]
  }

  /** The figures of a percentile, stated by summing its slice directly. */
  function SliceFigures(s: seq<real>, pct: real): Figures
    requires s != []
  {
    match Slice(s, pct)
    case Some(part) =>
      if part == [] then Figures(NotANumber, Undefined, Number(0.0), Number(0.0))
      else
        Figures(Number(Sum(part) / |part| as real),
                Number(if pct > 0.0 then part[|part| - 1] else part[0]),
                Number(Sum(part)), Number(SumSquares(part)))
    case None =>
      if pct > 0.0 then Figures(NotANumber, Undefined, Undefined, Undefined)
      else Figures(NotANumber, At(s, |s| - SliceSize(pct, |s|)), NotANumber, NotANumber)
  }

  /** What a percentile adds to the summary: nothing when its slice would be empty. */
  function WithPercent(data: TimerData, s: seq<real>, p: Percent): TimerData
    requires s != []
  {
    var k := if |s| == 1 then 1 else SliceSize(p.value, |s|);
    if k == 0 then data else PutPercent(data, p, k, SliceFigures(s, p.value))
  }

  function PercentData(s: seq<real>, percents: seq<Percent>): TimerData
    requires s != []
  {
    if percents == [] then map[]
    else
      var last := |percents| - 1;
      WithPercent(PercentData(s, percents[..last]), s, percents[last])
  }

  // ----- specification: overall figures

  function Mean(s: seq<real>): real
    requires s != []
  {
    Sum(s) / |s| as real
  }

  function Median(s: seq<real>): real
    requires s != []
  {
    var mid := |s| / 2;
    if |s| % 2 == 1 then s[mid] else (s[mid - 1] + s[mid]) / 2.0
  }

  function Variance(s: seq<real>): real
    requires s != []
  {
    Deviation(s, Mean(s)) / |s| as real
  }

  function WithOverall(data: TimerData, s: seq<real>, timerCount: real, interval: PositiveReal): TimerData
    requires s != []
  {
    WithTotals(WithRange(data, s, timerCount, interval), s)
  }

  function WithRange(data: TimerData, s: seq<real>, timerCount: real, interval: PositiveReal): TimerData
    requires s != []
  {
    data["std" := RootOf(Variance(s))]
        ["upper" := Number(s[|s| - 1])]
        ["lower" := Number(s[0])]
        ["count" := Number(timerCount)]
        ["count_ps" := Number(timerCount / (interval / 1000.0))]
  }

  function WithTotals(data: TimerData, s: seq<real>): TimerData
    requires s != []
  {
    data["sum" := Number(Sum(s))]
        ["sum_squares" := Number(SumSquares(s))]
        ["mean" := Number(Mean(s))]
        ["median" := Number(Median(s))]
  }

  // ----- specification: histogram

  predicate Under(x: real, limit: Limit)
  {
    limit.Unbounded? || x < limit.bound
  }

  /** Every sample below b is below a. */
  predicate Covers(a: Limit, b: Limit)
  {
    a.Unbounded? || (b.Below? && b.bound <= a.bound)
  }

  predicate UnderAny(x: real, bins: seq<Limit>)
  {
    exists b <- bins :: Under(x, b)
  }

  /** x belongs to bin j: it is below limit j and below none of the limits before it. */
  predicate Lands(x: real, bins: seq<Limit>, j: nat)
    requires j < |bins|
  {
    Under(x, bins[j]) && !UnderAny(x, bins[..j])
  }

  /** How many samples belong to bin j. */
  function BinCount(s: seq<real>, bins: seq<Limit>, j: nat): (n: nat)
    requires j < |bins|
  {
    if s == [] then 0
    else BinCount(s[..|s| - 1], bins, j) + if Lands(s[|s| - 1], bins, j) then 1 else 0
  }

  function CountUnderAny(s: seq<real>, bins: seq<Limit>): nat
  {
    if s == [] then 0
    else CountUnderAny(s[..|s| - 1], bins) + if UnderAny(s[|s| - 1], bins) then 1 else 0
  }

  function BinName(limit: Limit): string
  {
    "bin_" + if limit.Unbounded? then "inf" else ReplaceFirst(limit.text, '.', "_")
  }

  /** The histogram object after the first j bins, in configuration order. */
  function BinCounts(s: seq<real>, bins: seq<Limit>, j: nat): map<string, nat>
    requires j <= |bins|
  {
    if j == 0 then map[]
    else BinCounts(s, bins, j - 1)[BinName(bins[j - 1]) := BinCount(s, bins, j - 1)]
  }

  /** A later one of the first j bins has the name of bin i. */
  ghost predicate RepeatedBefore(bins: seq<Limit>, i: nat, j: nat)
    requires i < |bins| && j <= |bins|
  {
    exists later :: i < later < j && BinName(bins[later]) == BinName(bins[i])
  }

  /** A bin that no later one of the same name overwrites shows its count. */
  lemma {:induction false} BinShown(s: seq<real>, bins: seq<Limit>, j: nat, i: nat)
    requires i < j <= |bins| && !RepeatedBefore(bins, i, j)
    ensures var h, name := BinCounts(s, bins, j), BinName(bins[i]);
      name in h && h[name] == BinCount(s, bins, i)
    decreases j
  {
    if i < j - 1 {
      assert BinName(bins[j - 1]) != BinName(bins[i]);
      BinShown(s, bins, j - 1, i);
    }
  }

  lemma BinsShown(s: seq<real>, bins: seq<Limit>)
    ensures forall i :: 0 <= i < |bins| && !RepeatedBefore(bins, i, |bins|) ==>
              && BinName(bins[i]) in BinCounts(s, bins, |bins|)
              && BinCounts(s, bins, |bins|)[BinName(bins[i])] == BinCount(s, bins, i)
  {
    hide RepeatedBefore, BinCounts, BinCount, BinName;
    forall i | 0 <= i < |bins| && !RepeatedBefore(bins, i, |bins|)
      ensures var h, name := BinCounts(s, bins, |bins|), BinName(bins[i]);
        name in h && h[name] == BinCount(s, bins, i)
    {
      BinShown(s, bins, |bins|, i);
    }
  }

  /** The bins of the first rule whose metric occurs in the key. */
  function BinsFor(key: string, rules: seq<BinRule>): seq<Limit>
  {
    if rules == [] then []
    else if Contains(key, rules[0].metric) then rules[0].bins
    else BinsFor(key, rules[1..])
  }

  // ----- specification: filter and whole summary

  /** Where the trailing run of digits starts. */
  function DigitsStart(s: string): (i: nat)
    ensures i <= |s|
  {
    if s != "" && IsDigit(s[|s| - 1]) then DigitsStart(s[..|s| - 1]) else |s|
  }

  /** `key.replace(/_(top)?\d+$/, "_percent")` */
  function CleanKey(key: string): string
  {
    var i := DigitsStart(key);
    if i == |key| then key
    else if EndsWith(key[..i], "_") then key[..i - 1] + "_percent"
    else if EndsWith(key[..i], "_top") then key[..i - 4] + "_percent"
    else key
  }

  function FilterTimerMetrics(data: TimerData, kept: seq<string>): TimerData
  {
    if kept == [] then data
    else map name | name in data && CleanKey(name) in kept :: data[name]
  }

  function FullSummary(key: string, s: seq<real>, timerCount: real, cfg: Settings): TimerData
  {
    if s == [] then map["count" := Number(0.0), "count_ps" := Number(0.0)]
    else
      var data := WithOverall(PercentData(s, cfg.percents), s, timerCount, cfg.interval);
      var bins := BinsFor(key, cfg.histogram);
      if bins == [] then data else data["histogram" := Histogram(BinCounts(s, bins, |bins|))]
  }

  /** The published summary of a timer, as a function of its sorted samples. */
  function Summary(key: string, s: seq<real>, timerCount: real, cfg: Settings): TimerData
  {
    FilterTimerMetrics(FullSummary(key, s, timerCount, cfg), cfg.kept)
  }

  // ----- the imperative computation

  /** Reading an array: outside its bounds JavaScript gives undefined. */
  function At(s: seq<real>, i: int): Field
  {
    if 0 <= i < |s| then Number(s[i]) else Undefined
  }

  function Minus(a: Field, b: Field): Field
  {
    if a.Number? && b.Number? then Number(a.x - b.x) else NotANumber
  }

  function DividedBy(a: Field, n: nat): Field
    requires n != 0
  {
    if a.Number? then Number(a.x / n as real) else NotANumber
  }

  ghost predicate ArePrefixSums(sums: seq<real>, s: seq<real>)
  {
    |sums| == |s| && forall i :: 0 <= i < |s| ==> sums[i] == Sum(s[..i + 1])
  }

  ghost predicate ArePrefixSquares(sums: seq<real>, s: seq<real>)
  {
    |sums| == |s| && forall i :: 0 <= i < |s| ==> sums[i] == SumSquares(s[..i + 1])
  }

  lemma PrefixStep(s: seq<real>, i: nat)
    requires i < |s|
    ensures Sum(s[..i + 1]) == s[i] + Sum(s[..i])
    ensures SumSquares(s[..i + 1]) == Square(s[i]) + SumSquares(s[..i])
  {
    var part := s[..i + 1];
    assert part[..i] == s[..i];
    assert Squares(part) == Squares(s[..i]) + [Square(s[i])];
    assert Squares(part)[..|Squares(part)| - 1] == Squares(s[..i]);
  }

  method PrefixSums(values: seq<real>) returns (sums: seq<real>, squares: seq<real>)
    requires values != []
    ensures ArePrefixSums(sums, values) && ArePrefixSquares(squares, values)
  {
    var min := values[0];
    sums, squares := [min], [Square(min)];
    PrefixStep(values, 0);
    assert values[..0] == [];
    assert sums[0] == Sum(values[..1]) && squares[0] == SumSquares(values[..1]);
    hide Sum, SumSquares, Square;
    for i := 1 to |values|
      invariant |sums| == |squares| == i
      invariant forall j :: 0 <= j < i ==> sums[j] == Sum(values[..j + 1])
      invariant forall j :: 0 <= j < i ==> squares[j] == SumSquares(values[..j + 1])
    {
      PrefixStep(values, i);
      sums := sums + [values[i] + sums[i - 1]];
      squares := squares + [Square(values[i]) + squares[i - 1]];
    }
  }

  /** Subtracting two prefix sums sums the slice between them. */
  lemma TopFigures(sums: seq<real>, squares: seq<real>, s: seq<real>, pct: real, k: nat)
    requires ArePrefixSums(sums, s) && ArePrefixSquares(squares, s)
    requires |s| > 1 && pct <= 0.0 && k == SliceSize(pct, |s|) && 0 < k < |s|
    ensures var sum := sums[|s| - 1] - sums[|s| - k - 1];
      SliceFigures(s, pct) == Figures(Number(sum / k as real), Number(s[|s| - k]), Number(sum),
                                      Number(squares[|s| - 1] - squares[|s| - k - 1]))
  {
    var i := |s| - k;
    SumSplit(s, i);
    SumSquaresSplit(s, i);
    hide Sum, SumSquares;
    assert s[..|s|] == s;
    assert sums[i - 1] == Sum(s[..i - 1 + 1]);
    assert squares[i - 1] == SumSquares(s[..i - 1 + 1]);
    assert Slice(s, pct) == Some(s[i..]);
  }

  lemma BottomFigures(sums: seq<real>, squares: seq<real>, s: seq<real>, pct: real, k: nat)
    requires ArePrefixSums(sums, s) && ArePrefixSquares(squares, s)
    requires |s| > 1 && pct > 0.0 && k == SliceSize(pct, |s|) && 0 < k <= |s|
    ensures SliceFigures(s, pct) == Figures(Number(sums[k - 1] / k as real), Number(s[k - 1]),
                                            Number(sums[k - 1]), Number(squares[k - 1]))
  {
    assert sums[k - 1] == Sum(s[..k - 1 + 1]);
    assert squares[k - 1] == SumSquares(s[..k - 1 + 1]);
    assert Slice(s, pct) == Some(s[..k]);
  }

  lemma OneSum(s: seq<real>)
    requires |s| == 1
    ensures Sum(s) == s[0]
  {
    assert s[..0] == [];
  }

  lemma OneSample(s: seq<real>)
    requires |s| == 1
    ensures Sum(s) == s[0] && SumSquares(s) == Square(s[0])
  {
    OneSum(s);
    assert s[..0] == [];
    assert Squares(s) == [Square(s[0])];
    OneSum(Squares(s));
  }

  /** The branches of the percentile loop for more than one sample. */
  method Threshold(values: seq<real>, sums: seq<real>, squares: seq<real>, pct: real, numInThreshold: nat)
    returns (figures: Figures)
    requires |values| > 1 && ArePrefixSums(sums, values) && ArePrefixSquares(squares, values)
    requires numInThreshold == SliceSize(pct, |values|) && numInThreshold != 0
    ensures figures == SliceFigures(values, pct)
  {
    var count := |values|;
    var boundary, sum, sumSquares;
    if pct > 0.0 {
      if numInThreshold <= count {
        BottomFigures(sums, squares, values, pct, numInThreshold);
      }
      boundary := At(values, numInThreshold - 1);
      sum := At(sums, numInThreshold - 1);
      sumSquares := At(squares, numInThreshold - 1);
    } else {
      if numInThreshold < count {
        TopFigures(sums, squares, values, pct, numInThreshold);
      }
      boundary := At(values, count - numInThreshold);
      sum := Minus(At(sums, count - 1), At(sums, count - numInThreshold - 1));
      sumSquares := Minus(At(squares, count - 1), At(squares, count - numInThreshold - 1));
    }
    figures := Figures(DividedBy(sum, numInThreshold), boundary, sum, sumSquares);
  }

  lemma OneSampleFigures(s: seq<real>, pct: real)
    requires |s| == 1
    ensures SliceFigures(s, pct)
         == Figures(Number(s[0]), Number(s[0]), Number(s[0]), Number(Square(s[0])))
  {
    OneSample(s);
  }

  method Percentiles(values: seq<real>, sums: seq<real>, squares: seq<real>, percents: seq<Percent>)
    returns (data: TimerData)
    requires values != [] && ArePrefixSums(sums, values) && ArePrefixSquares(squares, values)
    ensures data == PercentData(values, percents)
  {
    var count := |values|;
    var min, max := values[0], values[count - 1];
    var figures := Figures(Number(min), Number(max), Number(min), Number(Square(min)));
    ghost var initial := figures;
    data := map[];
    for key2 := 0 to |percents|
      invariant data == PercentData(values, percents[..key2])
      invariant count == 1 ==> figures == initial
    {
      var pct := percents[key2];
      assert percents[..key2 + 1][..key2] == percents[..key2];
      var numInThreshold := count;
      if count > 1 {
        numInThreshold := SliceSize(pct.value, count);
        if numInThreshold == 0 {
          continue;
        }
        figures := Threshold(values, sums, squares, pct.value, numInThreshold);
      } else {
        OneSampleFigures(values, pct.value);
      }
      data := PutPercent(data, pct, numInThreshold, figures);
    }
    assert percents[..|percents|] == percents;
  }

  method SumOfDiffs(values: seq<real>, mean: real) returns (sumOfDiffs: real)
    ensures sumOfDiffs == Deviation(values, mean)
  {
    sumOfDiffs := 0.0;
    for i := 0 to |values|
      invariant sumOfDiffs == Deviation(values[..i], mean)
    {
      assert values[..i + 1][..i] == values[..i];
      sumOfDiffs := sumOfDiffs + Square(values[i] - mean);
    }
    assert values[..|values|] == values;
  }

  ghost predicate IsFirstMatch(key: string, rules: seq<BinRule>, i: nat)
    requires i < |rules|
  {
    Contains(key, rules[i].metric) && forall j :: 0 <= j < i ==> !Contains(key, rules[j].metric)
  }

  method FindBins(key: string, rules: seq<BinRule>) returns (bins: seq<Limit>)
    ensures bins == BinsFor(key, rules)
    ensures if exists i :: 0 <= i < |rules| && IsFirstMatch(key, rules, i)
            then exists i :: 0 <= i < |rules| && IsFirstMatch(key, rules, i) && bins == rules[i].bins
            else bins == [] && forall i :: 0 <= i < |rules| ==> !Contains(key, rules[i].metric)
  {
    bins := [];
    for i := 0 to |rules|
      invariant bins == []
      invariant forall j :: 0 <= j < i ==> !Contains(key, rules[j].metric)
      invariant BinsFor(key, rules) == BinsFor(key, rules[i..])
    {
      if Contains(key, rules[i].metric) {
        bins := rules[i].bins;
        assert IsFirstMatch(key, rules, i);
        break;
      }
    }
  }

  /** A run of samples that alone belong to bin j has the length of the bin's count. */
  lemma {:induction false} BinCountOfRun(s: seq<real>, bins: seq<Limit>, j: nat, lo: nat, hi: nat)
    requires j < |bins| && lo <= hi <= |s|
    requires forall t :: 0 <= t < |s| ==> (Lands(s[t], bins, j) <==> lo <= t < hi)
    ensures BinCount(s, bins, j) == hi - lo
  {
    if s != [] {
      var m := |s| - 1;
      forall t | 0 <= t < m
        ensures Lands(s[..m][t], bins, j) <==> lo <= t < (if hi <= m then hi else m)
      {
        assert s[..m][t] == s[t];
      }
      if lo <= m {
        BinCountOfRun(s[..m], bins, j, lo, if hi <= m then hi else m);
      } else {
        BinCountOfRun(s[..m], bins, j, m, m);
      }
    }
  }

  lemma UnderAnyStep(x: real, bins: seq<Limit>, j: nat)
    requires j < |bins|
    ensures UnderAny(x, bins[..j + 1]) <==> UnderAny(x, bins[..j]) || Under(x, bins[j])
  {
    assert bins[..j + 1] == bins[..j] + [bins[j]];
  }

  /** Exactly the first i samples belong to one of the first j bins. */
  ghost predicate HasPassed(s: seq<real>, bins: seq<Limit>, j: nat, i: nat)
    requires j <= |bins|
  {
    forall t :: 0 <= t < |s| ==> (UnderAny(s[t], bins[..j]) <==> t < i)
  }

  /** The samples that one pass of the inner loop moves over are those of its bin. */
  lemma PassIsBin(s: seq<real>, bins: seq<Limit>, j: nat, lo: nat, hi: nat)
    requires Sorted(s) && j < |bins| && lo <= hi <= |s|
    requires HasPassed(s, bins, j, lo)
    requires forall t :: lo <= t < hi ==> Under(s[t], bins[j])
    requires hi < |s| ==> !Under(s[hi], bins[j])
    ensures HasPassed(s, bins, j + 1, hi)
    ensures BinCount(s, bins, j) == hi - lo
  {
    forall t | hi <= t < |s|
      ensures !Under(s[t], bins[j])
    {
      assert s[hi] <= s[t];
    }
    hide Under, UnderAny;
    forall t | 0 <= t < |s|
      ensures UnderAny(s[t], bins[..j + 1]) <==> t < hi
      ensures Lands(s[t], bins, j) <==> lo <= t < hi
    {
      UnderAnyStep(s[t], bins, j);
    }
    BinCountOfRun(s, bins, j, lo, hi);
  }

  /** The two-pointer loop. `steps` counts how often the pointer moves: over all bins together
      at most once for every sample. */
  method FillHistogram(values: seq<real>, bins: seq<Limit>)
    returns (histogram: map<string, nat>, ghost steps: nat)
    requires Sorted(values)
    ensures histogram == BinCounts(values, bins, |bins|)
    ensures forall i :: 0 <= i < |bins| && !RepeatedBefore(bins, i, |bins|) ==>
              && BinName(bins[i]) in histogram
              && histogram[BinName(bins[i])] == BinCount(values, bins, i)
    ensures steps <= |values|
  {
    histogram, steps := map[], 0;
    var i := 0;
    assert HasPassed(values, bins, 0, 0);
    for j := 0 to |bins|
      invariant steps == i <= |values|
      invariant HasPassed(values, bins, j, i)
      invariant histogram == BinCounts(values, bins, j)
    {
      var freq := 0;
      ghost var lo := i;
      while i < |values| && Under(values[i], bins[j])
        invariant lo <= i == steps <= |values| && freq == i - lo
        invariant forall t :: lo <= t < i ==> Under(values[t], bins[j])
      {
        freq := freq + 1;
        i, steps := i + 1, steps + 1;
      }
      PassIsBin(values, bins, j, lo, i);
      histogram := histogram[BinName(bins[j]) := freq];
    }
    BinsShown(values, bins);
  }

  method Overall(values: seq<real>, sums: seq<real>, squares: seq<real>, timerCount: real,
                 interval: PositiveReal, percentData: TimerData) returns (data: TimerData)
    requires values != [] && ArePrefixSums(sums, values) && ArePrefixSquares(squares, values)
    ensures data == WithOverall(percentData, values, timerCount, interval)
  {
    var count := |values|;
    assert values[..count - 1 + 1] == values;
    var sum, sumSquares := sums[count - 1], squares[count - 1];
    var mean := sum / count as real;
    var sumOfDiffs := SumOfDiffs(values, mean);
    var mid := count / 2;
    var median := if count % 2 == 1 then values[mid] else (values[mid - 1] + values[mid]) / 2.0;
    data := percentData["std" := RootOf(sumOfDiffs / count as real)];
    data := data["upper" := Number(values[count - 1])];
    data := data["lower" := Number(values[0])];
    data := data["count" := Number(timerCount)];
    data := data["count_ps" := Number(timerCount / (interval / 1000.0))];
    data := data["sum" := Number(sum)];
    data := data["sum_squares" := Number(sumSquares)];
    data := data["mean" := Number(mean)];
    data := data["median" := Number(median)];
  }

  /** One iteration of the timer loop; the sorted list replaces the stored one. */
  method ProcessTimer(key: string, samples: seq<real>, timerCount: real, cfg: Settings)
    returns (values: seq<real>, data: TimerData)
    ensures values == Sort(samples)
    ensures data == Summary(key, Sort(samples), timerCount, cfg)
  {
    values := samples;
    var current: TimerData := map[];
    if |values| > 0 {
      values := Sort(values);
      var sums, squares := PrefixSums(values);
      current := Percentiles(values, sums, squares, cfg.percents);
      current := Overall(values, sums, squares, timerCount, cfg.interval, current);
      var bins := FindBins(key, cfg.histogram);
      if |bins| > 0 {
        var histogram, _ := FillHistogram(values, bins);
        current := current["histogram" := Histogram(histogram)];
      }
    } else {
      current := map["count" := Number(0.0), "count_ps" := Number(0.0)];
    }
    data := FilterTimerMetrics(current, cfg.kept);
  }
}
