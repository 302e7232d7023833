/** What the published timer figures mean: slices are extremal and complementary, the
    variance identity holds with its bounds, and arrival order does not matter. */
module TimerTheorems {
  import opened JsStrings
  import opened Samples
  import opened TimerMetrics

  // ----- percentile slices

  /** For every percentile: figures are lost exactly when there are several samples and the scaled
      size rounds beyond them, or, for a top slice, to all of them. */
  lemma SliceExistsIff(s: seq<real>, pct: real)
    requires s != []
    ensures var size := Abs(pct) / 100.0 * |s| as real;
      Slice(s, pct).None? <==>
        |s| > 1 && size >= if pct > 0.0 then |s| as real + 0.5 else |s| as real - 0.5
  {
    var size := Abs(pct) / 100.0 * |s| as real;
    assert SliceSize(pct, |s|) == Round(size);
    RoundAtLeast(size, |s|);
    RoundAtLeast(size, |s| + 1);
  }

  lemma RoundAtLeast(x: real, n: int)
    ensures Round(x) >= n <==> x >= n as real - 0.5
  {
  }

  /** Within 100 the size fits, so that only top slices can be lost. */
  lemma SliceFits(s: seq<real>, pct: real)
    requires s != [] && -100.0 <= pct <= 100.0
    ensures SliceSize(pct, |s|) <= |s|
    ensures pct > 0.0 ==> Slice(s, pct).Some?
  {
    var share := Abs(pct) / 100.0;
    var size := share * |s| as real;
    ScaleAtMost(share, |s|);
    assert size <= |s| as real;
    RoundAtLeast(size, |s| + 1);
    assert SliceSize(pct, |s|) == Round(size);
    hide Round, SliceSize, Abs;
  }

  /** Two samples at percentile -90: the slice takes both and its figures are lost. */
  lemma TopSliceOfAllIsLost()
    ensures var f := SliceFigures([1.0, 2.0], -90.0);
      f.sum == NotANumber && f.mean == NotANumber && f.sumSquares == NotANumber
  {
    assert Abs(-90.0) / 100.0 * 2.0 == 1.8;
    assert SliceSize(-90.0, 2) == 2;
  }

  /** A slice has k of the samples. */
  lemma SliceIsPart(s: seq<real>, pct: real, part: seq<real>)
    requires s != [] && Slice(s, pct) == Some(part)
    ensures |part| == if |s| == 1 then 1 else SliceSize(pct, |s|)
    ensures |part| <= |s|
    ensures part == if pct > 0.0 then s[..|part|] else s[|s| - |part|..]
    ensures multiset(part) <= multiset(s)
  {
    assert |s| == 1 ==> s[..1] == s && s[0..] == s;
    var cut := if pct > 0.0 then |part| else |s| - |part|;
    assert s == s[..cut] + s[cut..];
  }

  /** No other choice of k samples has a smaller sum than the lowest slice, or a larger sum
      than the top slice. */
  lemma SliceIsExtremal(samples: seq<real>, pct: real, part: seq<real>, t: seq<real>)
    requires samples != [] && Slice(Sort(samples), pct) == Some(part)
    requires multiset(t) <= multiset(samples) && |t| == |part|
    ensures pct > 0.0 ==> Sum(part) <= Sum(t)
    ensures pct <= 0.0 ==> Sum(t) <= Sum(part)
  {
    var s := Sort(samples);
    SortSum(t);
    SliceIsPart(s, pct, part);
    if pct > 0.0 {
      LowestSumIsLeast(s, Sort(t));
    } else {
      HighestSumIsGreatest(s, Sort(t));
    }
  }

  lemma MeanFits(a: real, b: real, k: real, m: real)
    requires a <= b && k > 0.0 && m > 0.0
    ensures a * (k + m) <= a * k + b * m <= b * (k + m)
  {
    assert (b - a) * m >= 0.0 && (b - a) * k >= 0.0;
    assert a * k + b * m - a * (k + m) == (b - a) * m;
    assert b * (k + m) - (a * k + b * m) == (b - a) * k;
  }

  lemma WeightedMean(a: real, b: real, k: real, m: real)
    requires a <= b && k > 0.0 && m > 0.0
    ensures a <= (a * k + b * m) / (k + m) <= b
  {
    MeanFits(a, b, k, m);
    QuotientBetween(a * k + b * m, a, b, k + m);
  }

  lemma QuotientBetween(x: real, lo: real, hi: real, d: real)
    requires d > 0.0 && lo * d <= x <= hi * d
    ensures lo <= x / d <= hi
  {
    assert x / d * d == x;
    CancelFactor(lo, x / d, d);
    CancelFactor(x / d, hi, d);
  }

  lemma CancelFactor(a: real, b: real, d: real)
    requires d > 0.0 && a * d <= b * d
    ensures a <= b
  {
  }

  lemma MeanBetween(s: seq<real>, lo: real, hi: real)
    requires s != [] && forall i :: 0 <= i < |s| ==> lo <= s[i] <= hi
    ensures lo <= Mean(s) <= hi
  {
    SumBounds(s, lo, hi);
    QuotientBetween(Sum(s), lo, hi, |s| as real);
  }

  lemma SumIsScaledMean(s: seq<real>)
    requires s != []
    ensures Sum(s) == Mean(s) * |s| as real
  {
  }

  /** The mean of the k lowest samples is at most the mean, which is at most that of the rest. */
  lemma MeansAreOrdered(s: seq<real>, k: nat)
    requires Sorted(s) && 0 < k < |s|
    ensures Mean(s[..k]) <= Mean(s) <= Mean(s[k..])
  {
    var a, b := Mean(s[..k]), Mean(s[k..]);
    HalvesAreOrdered(s, k);
    MeanOfHalves(s, k);
    WeightedMean(a, b, k as real, (|s| - k) as real);
  }

  lemma HalvesAreOrdered(s: seq<real>, k: nat)
    requires Sorted(s) && 0 < k < |s|
    ensures Mean(s[..k]) <= s[k - 1] <= Mean(s[k..])
  {
    MeanBetween(s[..k], s[0], s[k - 1]);
    MeanBetween(s[k..], s[k - 1], s[|s| - 1]);
  }

  lemma MeanOfHalves(s: seq<real>, k: nat)
    requires 0 < k < |s|
    ensures Mean(s) == (Mean(s[..k]) * k as real + Mean(s[k..]) * (|s| - k) as real)
                       / (k as real + (|s| - k) as real)
  {
    SumSplit(s, k);
    SumIsScaledMean(s[..k]);
    SumIsScaledMean(s[k..]);
    SameQuotient(Sum(s), Mean(s[..k]) * k as real + Mean(s[k..]) * (|s| - k) as real,
                 |s| as real, k as real + (|s| - k) as real);
  }

  lemma SameQuotient(x: real, y: real, n: real, m: real)
    requires x == y && n == m && n != 0.0
    ensures x / n == y / m
  {
  }

  /** bottom mean <= overall mean <= top mean, for every slice that exists and is not empty. */
  lemma SliceMeanOrder(s: seq<real>, pct: real, part: seq<real>)
    requires s != [] && Sorted(s) && Slice(s, pct) == Some(part) && part != []
    ensures pct > 0.0 ==> Mean(part) <= Mean(s)
    ensures pct <= 0.0 ==> Mean(s) <= Mean(part)
  {
    SliceIsPart(s, pct, part);
    PartMeanOrder(s, part);
  }

  lemma PartMeanOrder(s: seq<real>, part: seq<real>)
    requires Sorted(s) && 0 < |part| <= |s|
    ensures part == s[..|part|] ==> Mean(part) <= Mean(s)
    ensures part == s[|s| - |part|..] ==> Mean(s) <= Mean(part)
  {
    hide Mean;
    if |part| == |s| {
      assert s[..|part|] == s && s[0..] == s;
    } else {
      MeansAreOrdered(s, |part|);
      MeansAreOrdered(s, |s| - |part|);
    }
  }

  // ----- complementary percentiles

  predicate IsWhole(x: real) { x.Floor as real == x }

  /** The sizes for p and -(100-p) add to n, or to n+1 exactly when p*n/100 ends in one half. */
  lemma ComplementSizes(p: real, n: nat)
    requires 0.0 < p < 100.0
    ensures SliceSize(p, n) + SliceSize(-(100.0 - p), n)
         == n + if IsWhole(p * n as real / 100.0 + 0.5) then 1 else 0
  {
    var q, x := p / 100.0, p * n as real / 100.0;
    ScaleDivided(p, n as real);
    ShareOfRest(q, n as real);
    assert Abs(p) / 100.0 == q && Abs(-(100.0 - p)) / 100.0 == 1.0 - q;
    SliceSizeIs(p, n, x);
    SliceSizeIs(-(100.0 - p), n, n as real - x);
    FloorsOfComplement(x, n);
  }

  lemma SliceSizeIs(pct: real, n: nat, x: real)
    requires Abs(pct) / 100.0 * n as real == x
    ensures SliceSize(pct, n) == Round(x)
  {
  }

  lemma ScaleDivided(p: real, n: real)
    ensures p / 100.0 * n == p * n / 100.0
  {
  }

  lemma ShareOfRest(q: real, n: real)
    ensures (1.0 - q) * n == n - q * n
  {
  }

  lemma FloorsOfComplement(x: real, n: int)
    ensures Round(x) + Round(n as real - x) == n + if IsWhole(x + 0.5) then 1 else 0
  {
    var f := (x + 0.5).Floor;
    var g := (n as real - x + 0.5).Floor;
    assert f as real <= x + 0.5 < f as real + 1.0;
    assert g as real <= n as real - x + 0.5 < g as real + 1.0;
  }

  /** When the sizes add to n, the two slices are the two parts of the samples. */
  lemma ComplementSums(s: seq<real>, p: real, low: seq<real>, high: seq<real>)
    requires |s| > 1 && 0.0 < p < 100.0
    requires SliceSize(p, |s|) + SliceSize(-(100.0 - p), |s|) == |s|
    requires Slice(s, p) == Some(low) && Slice(s, -(100.0 - p)) == Some(high)
    ensures low + high == s
    ensures Sum(low) + Sum(high) == Sum(s)
    ensures SumSquares(low) + SumSquares(high) == SumSquares(s)
  {
    hide Sum, SumSquares, SliceSize;
    SliceIsPart(s, p, low);
    SliceIsPart(s, -(100.0 - p), high);
    SumSplit(s, |low|);
    SumSquaresSplit(s, |low|);
  }

  // ----- variance, mean and median

  lemma SquareOfDifference(x: real, c: real)
    ensures Square(x - c) == Square(x) - 2.0 * c * x + c * c
  {
  }

  lemma CountStep(n: nat, d: real)
    ensures (n + 1) as real * d == n as real * d + d
  {
  }

  lemma SumSquaresStep(s: seq<real>)
    requires s != []
    ensures SumSquares(s) == SumSquares(s[..|s| - 1]) + Square(s[|s| - 1])
  {
    assert Squares(s)[..|s[..|s| - 1]|] == Squares(s[..|s| - 1]) by { SquaresLength(s[..|s| - 1]); }
    SquaresLength(s);
  }

  lemma {:induction false} SquaresLength(s: seq<real>)
    ensures |Squares(s)| == |s|
  {
    if s != [] { SquaresLength(s[..|s| - 1]); }
  }

  /** The sum of squared distances from c, from the sum, the sum of squares and the count. */
  function Expansion(sumSquares: real, sum: real, n: nat, c: real): real
  {
    sumSquares - 2.0 * c * sum + n as real * (c * c)
  }

  lemma ExpandStep(sumSquares: real, sum: real, n: nat, c: real, x: real)
    ensures Expansion(sumSquares, sum, n, c) + Square(x - c)
         == Expansion(sumSquares + Square(x), sum + x, n + 1, c)
  {
    SquareOfDifference(x, c);
    Distribute(2.0 * c, sum, x);
    CountStep(n, c * c);
  }

  lemma {:induction false} DeviationExpands(s: seq<real>, c: real)
    ensures Deviation(s, c) == Expansion(SumSquares(s), Sum(s), |s|, c)
  {
    if s != [] {
      hide Square, Squares, SumSquares, Expansion;
      var m := |s| - 1;
      DeviationExpands(s[..m], c);
      ExpandStep(SumSquares(s[..m]), Sum(s[..m]), m, c, s[m]);
      SumSquaresStep(s);
    }
  }

  lemma VarianceAlgebra(q: real, sum: real, k: nat, m: real)
    requires k > 0 && m == sum / k as real
    ensures Expansion(q, sum, k, m) / k as real * k as real == q - sum * sum / k as real
  {
    var n := k as real;
    assert m * n == sum;
    assert n * (m * m) == (n * m) * m == sum * m;
    assert sum * sum / n == sum * m;
    var d := Expansion(q, sum, k, m);
    assert d / n * n == d;
  }

  /** The two-pass sum of squared differences is sum_squares - sum^2/count. */
  lemma VarianceIdentity(s: seq<real>)
    requires s != []
    ensures Variance(s) * |s| as real == SumSquares(s) - Sum(s) * Sum(s) / |s| as real
  {
    hide Deviation, Sum, SumSquares, Expansion;
    DeviationExpands(s, Mean(s));
    VarianceAlgebra(SumSquares(s), Sum(s), |s|, Mean(s));
  }

  lemma {:induction false} DeviationSign(s: seq<real>, c: real)
    ensures Deviation(s, c) >= 0.0
    ensures Deviation(s, c) == 0.0 <==> forall i :: 0 <= i < |s| ==> s[i] == c
  {
    if s != [] {
      var m := |s| - 1;
      DeviationSign(s[..m], c);
      SquareSign(s[m] - c);
    }
  }

  lemma SquareSign(x: real)
    ensures Square(x) >= 0.0 && (Square(x) == 0.0 <==> x == 0.0)
  {
    if x != 0.0 {
      TimesSign(x, x);
    }
  }

  lemma TimesSign(a: real, b: real)
    requires (a > 0.0 && b > 0.0) || (a < 0.0 && b < 0.0)
    ensures Times(a, b) > 0.0
  {
  }

  lemma EqualSamplesMean(s: seq<real>)
    requires s != [] && forall x <- s :: x == s[0]
    ensures Mean(s) == s[0]
  {
    assert forall i :: 0 <= i < |s| ==> s[i] in s;
    MeanBetween(s, s[0], s[0]);
  }

  /** The standard deviation is the root of a non-negative number, and zero exactly when all
      samples are equal. */
  lemma VarianceSign(s: seq<real>)
    requires s != []
    ensures Variance(s) >= 0.0
    ensures Variance(s) == 0.0 <==> forall x <- s :: x == s[0]
  {
    DeviationSign(s, Mean(s));
    QuotientSign(Deviation(s, Mean(s)), |s| as real);
    if Variance(s) == 0.0 {
      assert s[0] == Mean(s);
      assert forall x <- s :: x == s[0];
    }
    if forall x <- s :: x == s[0] {
      EqualSamplesMean(s);
      assert forall i :: 0 <= i < |s| ==> s[i] in s;
    }
  }

  lemma QuotientSign(x: real, n: real)
    requires n > 0.0 && x >= 0.0
    ensures x / n >= 0.0 && (x / n == 0.0 <==> x == 0.0)
  {
  }

  /** The most the squares of n samples between lo and hi with the given sum can add up to. */
  function SquareCap(sum: real, n: nat, lo: real, hi: real): real
  {
    (lo + hi) * sum - n as real * (lo * hi)
  }

  lemma SquareCapStep(sum: real, n: nat, x: real, lo: real, hi: real)
    requires lo <= x <= hi
    ensures SquareCap(sum, n, lo, hi) + Square(x) <= SquareCap(sum + x, n + 1, lo, hi)
  {
    var a, b := x - lo, hi - x;
    if a > 0.0 && b > 0.0 {
      TimesSign(a, b);
    }
    assert Times(a, b) == (lo + hi) * x - lo * hi - Square(x);
    CountStep(n, lo * hi);
    Distribute(lo + hi, sum, x);
  }

  lemma {:induction false} SumSquaresBound(s: seq<real>, lo: real, hi: real)
    requires forall i :: 0 <= i < |s| ==> lo <= s[i] <= hi
    ensures SumSquares(s) <= SquareCap(Sum(s), |s|, lo, hi)
  {
    if s != [] {
      hide Square, SumSquares, SquareCap;
      var m := |s| - 1;
      SumSquaresBound(s[..m], lo, hi);
      SumSquaresStep(s);
      SquareCapStep(Sum(s[..m]), m, s[m], lo, hi);
    }
  }

  lemma Distribute(a: real, x: real, y: real)
    ensures a * (x + y) == a * x + a * y
  {
  }

  lemma SpreadAlgebra(v: real, q: real, sum: real, n: real, m: real, lo: real, hi: real)
    requires n > 0.0 && m == sum / n
    requires v * n == q - sum * sum / n
    requires q <= (lo + hi) * sum - n * (lo * hi)
    ensures v <= (hi - m) * (m - lo)
  {
    assert m * n == sum;
    assert sum * sum / n == (m * m) * n;
    var w := (hi - m) * (m - lo);
    assert w == (lo + hi) * m - lo * hi - m * m;
    assert (lo + hi) * sum == ((lo + hi) * m) * n;
    assert w * n == (lo + hi) * sum - n * (lo * hi) - (m * m) * n;
    CancelFactor(v, w, n);
  }

  lemma HalfRange(m: real, lo: real, hi: real)
    ensures (hi - m) * (m - lo) <= Square((hi - lo) / 2.0)
  {
    var d := m - (lo + hi) / 2.0;
    SquareSign(d);
    var h := (hi - lo) / 2.0;
    assert hi - m == h - d && m - lo == h + d;
    assert (h - d) * (h + d) == Square(h) - Square(d);
  }

  /** std^2 <= (upper - mean)(mean - lower) <= ((upper - lower)/2)^2 */
  lemma VarianceBound(s: seq<real>)
    requires s != [] && Sorted(s)
    ensures var lo, hi, m := s[0], s[|s| - 1], Mean(s);
      Variance(s) <= (hi - m) * (m - lo) <= Square((hi - lo) / 2.0)
  {
    hide Deviation, Sum, SumSquares;
    var lo, hi, n, m := s[0], s[|s| - 1], |s| as real, Mean(s);
    SumSquaresBound(s, lo, hi);
    VarianceIdentity(s);
    SpreadAlgebra(Variance(s), SumSquares(s), Sum(s), n, m, lo, hi);
    HalfRange(m, lo, hi);
  }

  /** lower <= mean, median <= upper, and at least half of the samples lie on each side of
      the median. */
  lemma CentreIsInRange(s: seq<real>)
    requires s != [] && Sorted(s)
    ensures s[0] <= Mean(s) <= s[|s| - 1]
    ensures s[0] <= Median(s) <= s[|s| - 1]
    ensures forall i :: 0 <= 2 * i < |s| ==> s[i] <= Median(s) <= s[|s| - 1 - i]
  {
    MeanBetween(s, s[0], s[|s| - 1]);
  }

  // ----- arrival order

  /** The summary is the same for every arrival order of the samples. */
  lemma SummaryIgnoresOrder(key: string, a: seq<real>, b: seq<real>, timerCount: real, cfg: Settings)
    requires multiset(a) == multiset(b)
    ensures Summary(key, Sort(a), timerCount, cfg) == Summary(key, Sort(b), timerCount, cfg)
  {
    SortIsCanonical(a, b);
  }
}
