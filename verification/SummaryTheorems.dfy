/** The published summary by name: what stands under each name, through the metric filter. */
module SummaryTheorems {
  import opened JsStrings
  import opened Samples
  import opened TimerMetrics
  import opened TimerTheorems
  import opened HistogramTheorems

  // ----- the filter

  /** The configured metrics let a name through. */
  predicate Keeps(kept: seq<string>, name: string)
  {
    kept == [] || CleanKey(name) in kept
  }

  /** `data` holds f under `name`, unless the filter drops the name. */
  ghost predicate ShowsAs(data: TimerData, kept: seq<string>, name: string, f: Field)
  {
    && (name in data <==> Keeps(kept, name))
    && (name in data ==> data[name] == f)
  }

  lemma FilterShows(data: TimerData, kept: seq<string>, name: string)
    requires name in data
    ensures ShowsAs(FilterTimerMetrics(data, kept), kept, name, data[name])
  {
    hide CleanKey;
  }

  // ----- percentiles as printed

  /** A percentile as JavaScript prints it: a sign, digits, and a fraction that may be absent. */
  datatype Printed = Printed(negative: bool, whole: string, fraction: string)

  predicate AreDigits(s: string)
  {
    forall i :: 0 <= i < |s| ==> IsDigit(s[i])
  }

  predicate IsPrinted(n: Printed)
  {
    n.whole != "" && AreDigits(n.whole) && AreDigits(n.fraction)
  }

  function Text(n: Printed): string
  {
    (if n.negative then "-" else "") + n.whole + if n.fraction == "" then "" else "." + n.fraction
  }

  /** The percentile as it stands in the names of its figures. */
  function Tag(n: Printed): string
  {
    (if n.negative then "top" else "") + n.whole + if n.fraction == "" then "" else "_" + n.fraction
  }

  lemma DotsReplaced(n: Printed)
    requires IsPrinted(n)
    ensures ReplaceFirst(Text(n), '.', "_")
         == (if n.negative then "-" else "") + (n.whole + if n.fraction == "" then "" else "_" + n.fraction)
  {
    var head := (if n.negative then "-" else "") + n.whole;
    if n.fraction == "" {
      assert Text(n) == head;
      ReplaceNone(head, '.', "_");
    } else {
      assert Text(n) == head + "." + n.fraction;
      ReplaceAt(head, '.', n.fraction, "_");
      assert head + "_" + n.fraction == (if n.negative then "-" else "") + (n.whole + ("_" + n.fraction));
    }
  }

  lemma CleanText(n: Printed)
    requires IsPrinted(n)
    ensures CleanPercent(Text(n)) == Tag(n)
  {
    hide ReplaceFirst, Text;
    DotsReplaced(n);
    var rest := n.whole + if n.fraction == "" then "" else "_" + n.fraction;
    if n.negative {
      assert "-" + rest == "" + "-" + rest;
      ReplaceAt("", '-', rest, "top");
      assert "" + "top" + rest == "top" + rest == Tag(n);
    } else {
      assert "" + rest == rest == Tag(n);
      assert '-' !in rest;
      ReplaceNone(rest, '-', "top");
    }
  }

  /** The tag without the sign. */
  function Digits(n: Printed): string
  {
    n.whole + if n.fraction == "" then "" else "_" + n.fraction
  }

  lemma PartsOfDigits(n: Printed)
    requires IsPrinted(n)
    ensures Split(Digits(n), "_") == [n.whole] + if n.fraction == "" then [] else [n.fraction]
  {
    hide Split;
    SplitWithoutSeparator(n.whole, '_');
    if n.fraction == "" {
      assert n.whole + "" == n.whole;
    } else {
      SplitWithoutSeparator(n.fraction, '_');
      SplitAtSeparator(n.whole, '_', n.fraction);
      assert n.whole + "_" + n.fraction == n.whole + ("_" + n.fraction);
    }
  }

  lemma SameDigits(n: Printed, m: Printed)
    requires IsPrinted(n) && IsPrinted(m) && Digits(n) == Digits(m)
    ensures n.whole == m.whole && n.fraction == m.fraction
  {
    PartsOfDigits(n);
    PartsOfDigits(m);
    hide Split, Digits, IsPrinted;
    var parts := Split(Digits(n), "_");
    assert n.whole == parts[0] == m.whole;
    assert |parts| == if n.fraction == "" then 1 else 2;
    if n.fraction != "" { assert n.fraction == parts[1] == m.fraction; }
  }

  lemma SignOfTag(n: Printed)
    requires IsPrinted(n)
    ensures Tag(n) != "" && (n.negative <==> Tag(n)[0] == 't')
    ensures |Tag(n)| >= 3 || !n.negative
    ensures Digits(n) == Tag(n)[if n.negative then 3 else 0..]
  {
    var sign := if n.negative then "top" else "";
    assert Tag(n) == sign + Digits(n);
    assert IsDigit(Digits(n)[0]);
    assert Tag(n)[|sign|..] == Digits(n);
  }

  /** The tag identifies the printed number. */
  lemma TagsAreDistinct(n: Printed, m: Printed)
    requires IsPrinted(n) && IsPrinted(m) && Tag(n) == Tag(m)
    ensures n == m
  {
    hide Tag, Digits, IsPrinted;
    SignOfTag(n);
    SignOfTag(m);
    SameDigits(n, m);
  }

  // ----- names in the published summary

  /** The five names a percentile publishes under. */
  function NamesOf(p: Percent): set<string>
  {
    var t := CleanPercent(p.text);
    {"count_" + t, "mean_" + t, (if p.value > 0.0 then "upper_" else "lower_") + t,
     "sum_" + t, "sum_squares_" + t}
  }

  const OVERALL_NAMES: set<string> :=
    {"std", "upper", "lower", "count", "count_ps", "sum", "sum_squares", "mean", "median", "histogram"}

  /** The tag in a percentile's name, if it is one. */
  function TagIn(name: string): string
  {
    if name == "" then ""
    else
      var from := if name[0] == 'c' || name[0] == 'u' || name[0] == 'l' then 6
                  else if name[0] == 'm' then 5
                  else if |name| > 4 && name[4] == 's' then 12 else 4;
      if from <= |name| then name[from..] else ""
  }

  predicate StartsLikeTag(t: string)
  {
    t != "" && (IsDigit(t[0]) || t[0] == 't')
  }

  lemma TagInName(p: Percent, name: string)
    requires name in NamesOf(p) && StartsLikeTag(CleanPercent(p.text))
    ensures TagIn(name) == CleanPercent(p.text)
  {
    hide CleanPercent;
    var t := CleanPercent(p.text);
    assert ("sum_" + t)[4] == t[0] && ("sum_squares_" + t)[4] == 's';
    assert ("count_" + t)[6..] == t && ("mean_" + t)[5..] == t && ("upper_" + t)[6..] == t;
    assert ("lower_" + t)[6..] == t && ("sum_" + t)[4..] == t && ("sum_squares_" + t)[12..] == t;
  }

  lemma OverallNamesHaveNoTag(name: string)
    requires name in OVERALL_NAMES
    ensures !StartsLikeTag(TagIn(name))
  {
    assert "count_ps"[6..] == "ps" && "median"[5..] == "n" && "histogram"[4..] == "ogram";
  }

  /** The configured percentiles are printed plainly, and equal texts are equal numbers. */
  ghost predicate ArePrinted(percents: seq<Percent>)
  {
    && (forall i :: 0 <= i < |percents| ==> IsPlainText(percents[i].text))
    && forall i, j :: 0 <= i < |percents| && 0 <= j < |percents| && percents[i].text == percents[j].text ==>
         percents[i] == percents[j]
  }

  ghost predicate IsPlainText(text: string)
  {
    exists n :: IsPrinted(n) && text == Text(n)
  }

  lemma TagOfText(text: string)
    requires IsPlainText(text)
    ensures StartsLikeTag(CleanPercent(text))
  {
    var n :| IsPrinted(n) && text == Text(n);
    CleanText(n);
    assert Tag(n)[0] == if n.negative then 't' else n.whole[0];
  }

  lemma SameTagSameText(a: string, b: string)
    requires IsPlainText(a) && IsPlainText(b) && CleanPercent(a) == CleanPercent(b)
    ensures a == b
  {
    hide CleanPercent, Tag, Text;
    var n :| IsPrinted(n) && a == Text(n);
    var m :| IsPrinted(m) && b == Text(m);
    CleanText(n);
    CleanText(m);
    TagsAreDistinct(n, m);
  }

  /** Different percentiles never share a name with each other or with the overall figures. */
  lemma NamesAreDisjoint(p: Percent, q: Percent)
    requires IsPlainText(p.text) && IsPlainText(q.text)
    ensures NamesOf(p) !! OVERALL_NAMES
    ensures p.text != q.text ==> NamesOf(p) !! NamesOf(q)
  {
    hide CleanPercent, IsPlainText, TagIn, NamesOf;
    TagOfText(p.text);
    TagOfText(q.text);
    forall name <- NamesOf(p)
      ensures name !in OVERALL_NAMES
      ensures p.text != q.text ==> name !in NamesOf(q)
    {
      TagInName(p, name);
      if name in OVERALL_NAMES {
        OverallNamesHaveNoTag(name);
      }
      if name in NamesOf(q) {
        TagInName(q, name);
        SameTagSameText(p.text, q.text);
      }
    }
  }

  // ----- percentile figures

  /** The unfiltered summary shows the size and the figures of a percentile under its names. */
  ghost predicate Shows(data: TimerData, p: Percent, count: nat, f: Figures)
  {
    var t := CleanPercent(p.text);
    var boundary := (if p.value > 0.0 then "upper_" else "lower_") + t;
    && NamesOf(p) <= data.Keys
    && data["count_" + t] == Number(count as real)
    && data["mean_" + t] == f.mean
    && data[boundary] == f.boundary
    && data["sum_" + t] == f.sum
    && data["sum_squares_" + t] == f.sumSquares
  }

  /** It says nothing about the percentile. */
  ghost predicate Omits(data: TimerData, p: Percent)
  {
    NamesOf(p) !! data.Keys
  }

  lemma SumNamesDiffer(t: string)
    ensures "sum_" + t != "sum_squares_" + t
  {
    assert |"sum_" + t| != |"sum_squares_" + t|;
  }

  lemma PutShows(data: TimerData, p: Percent, count: nat, f: Figures)
    ensures Shows(PutPercent(data, p, count, f), p, count, f)
  {
    hide CleanPercent;
    var t := CleanPercent(p.text);
    assert ("count_" + t)[0] == 'c' && ("upper_" + t)[0] == 'u' && ("lower_" + t)[0] == 'l';
    assert ("mean_" + t)[0] == 'm' && ("sum_" + t)[0] == 's' && ("sum_squares_" + t)[0] == 's';
    SumNamesDiffer(t);
  }

  lemma PutKeeps(data: TimerData, q: Percent, count: nat, f: Figures, name: string)
    requires name !in NamesOf(q)
    ensures var data' := PutPercent(data, q, count, f);
      (name in data' <==> name in data) && (name in data ==> data'[name] == data[name])
  {
  }

  /** Agreement on a percentile's names. */
  ghost predicate SameFor(a: TimerData, b: TimerData, p: Percent)
  {
    forall name <- NamesOf(p) :: (name in a <==> name in b) && (name in a ==> a[name] == b[name])
  }

  lemma SameForShows(a: TimerData, b: TimerData, p: Percent, count: nat, f: Figures)
    requires SameFor(a, b, p)
    ensures Shows(a, p, count, f) ==> Shows(b, p, count, f)
    ensures Omits(a, p) ==> Omits(b, p)
  {
    hide CleanPercent;
  }

  lemma PutKeepsOthers(data: TimerData, p: Percent, q: Percent, count: nat, f: Figures)
    requires NamesOf(p) !! NamesOf(q)
    ensures SameFor(data, PutPercent(data, q, count, f), p)
  {
    hide PutPercent, NamesOf;
    forall name <- NamesOf(p)
      ensures var data' := PutPercent(data, q, count, f);
        (name in data <==> name in data') && (name in data ==> data[name] == data'[name])
    {
      PutKeeps(data, q, count, f, name);
    }
  }

  /** How many samples a percentile reports. */
  function ReportedSize(s: seq<real>, p: Percent): nat
  {
    if |s| == 1 then 1 else SliceSize(p.value, |s|)
  }

  /** The data shows percentile p of s: its figures, or nothing when its slice is empty. */
  ghost predicate Reports(data: TimerData, s: seq<real>, p: Percent)
    requires s != []
  {
    var k := ReportedSize(s, p);
    if k == 0 then Omits(data, p) else Shows(data, p, k, SliceFigures(s, p.value))
  }

  /** p is unreported as long as none of the percentiles is p. */
  lemma {:induction false} NotYetReported(s: seq<real>, percents: seq<Percent>, p: Percent)
    requires s != [] && IsPlainText(p.text)
    requires forall i :: 0 <= i < |percents| ==> IsPlainText(percents[i].text) && percents[i].text != p.text
    ensures Omits(PercentData(s, percents), p)
  {
    if percents != [] {
      hide PutPercent, SliceFigures, SliceSize, NamesOf, IsPlainText;
      var m := |percents| - 1;
      var q, data := percents[m], PercentData(s, percents[..m]);
      NotYetReported(s, percents[..m], p);
      NamesAreDisjoint(p, q);
      var k := ReportedSize(s, q);
      PutKeepsOthers(data, p, q, k, SliceFigures(s, q.value));
    }
  }

  lemma ReportStep(data: TimerData, s: seq<real>, p: Percent, q: Percent)
    requires s != [] && IsPlainText(p.text) && IsPlainText(q.text) && (p.text == q.text ==> p == q)
    requires (p == q && Omits(data, p)) || Reports(data, s, p)
    ensures Reports(WithPercent(data, s, q), s, p)
  {
    hide PutPercent, SliceFigures, SliceSize, NamesOf, IsPlainText, Shows, Omits;
    var k, f := ReportedSize(s, q), SliceFigures(s, q.value);
    if p == q {
      PutShows(data, p, k, f);
    } else {
      NamesAreDisjoint(p, q);
      PutKeepsOthers(data, p, q, k, f);
      SameForShows(data, PutPercent(data, q, k, f), p, ReportedSize(s, p), SliceFigures(s, p.value));
    }
  }

  lemma {:induction false} PercentIsReported(s: seq<real>, percents: seq<Percent>, i: nat)
    requires s != [] && i < |percents| && ArePrinted(percents)
    ensures Reports(PercentData(s, percents), s, percents[i])
    decreases |percents|
  {
    hide Reports, Omits, WithPercent, IsPlainText;
    var m := |percents| - 1;
    var p, q, init := percents[i], percents[m], percents[..m];
    assert forall j :: 0 <= j < m ==> init[j] == percents[j];
    if j :| 0 <= j < m && init[j].text == p.text {
      assert percents[j] == percents[i];
      PercentIsReported(s, init, j);
    } else {
      assert i == m;
      NotYetReported(s, init, p);
    }
    ReportStep(PercentData(s, init), s, p, q);
  }

  // ----- the whole summary

  /** The overall figures and the histogram leave other names alone. */
  lemma FullKeeps(key: string, s: seq<real>, timerCount: real, cfg: Settings, name: string)
    requires s != [] && name !in OVERALL_NAMES
    ensures var data, full := PercentData(s, cfg.percents), FullSummary(key, s, timerCount, cfg);
      (name in full <==> name in data) && (name in data ==> full[name] == data[name])
  {
    hide PercentData, BinCounts, BinsFor, Median, Variance, Mean;
  }

  lemma FullReports(key: string, s: seq<real>, timerCount: real, cfg: Settings, p: Percent)
    requires s != [] && IsPlainText(p.text) && Reports(PercentData(s, cfg.percents), s, p)
    ensures Reports(FullSummary(key, s, timerCount, cfg), s, p)
  {
    hide FullSummary, PercentData, NamesOf, Shows, Omits, IsPlainText, SliceFigures, SliceSize;
    var data, full := PercentData(s, cfg.percents), FullSummary(key, s, timerCount, cfg);
    NamesAreDisjoint(p, p);
    forall name <- NamesOf(p)
      ensures (name in data <==> name in full) && (name in data ==> data[name] == full[name])
    {
      FullKeeps(key, s, timerCount, cfg, name);
    }
    SameForShows(data, full, p, ReportedSize(s, p), SliceFigures(s, p.value));
  }

  /** The published summary shows a percentile's size and figures, as far as the filter lets
      their names through. */
  ghost predicate Publishes(data: TimerData, kept: seq<string>, p: Percent, count: nat, f: Figures)
  {
    var t := CleanPercent(p.text);
    && ShowsAs(data, kept, "count_" + t, Number(count as real))
    && ShowsAs(data, kept, "mean_" + t, f.mean)
    && ShowsAs(data, kept, (if p.value > 0.0 then "upper_" else "lower_") + t, f.boundary)
    && ShowsAs(data, kept, "sum_" + t, f.sum)
    && ShowsAs(data, kept, "sum_squares_" + t, f.sumSquares)
  }

  lemma FilterPublishes(data: TimerData, kept: seq<string>, p: Percent, count: nat, f: Figures)
    requires Shows(data, p, count, f)
    ensures Publishes(FilterTimerMetrics(data, kept), kept, p, count, f)
  {
    hide CleanPercent, FilterTimerMetrics, ShowsAs;
    forall name <- NamesOf(p)
      ensures name in data && ShowsAs(FilterTimerMetrics(data, kept), kept, name, data[name])
    {
      FilterShows(data, kept, name);
    }
  }

  lemma FilterOmits(data: TimerData, kept: seq<string>, p: Percent)
    requires Omits(data, p)
    ensures Omits(FilterTimerMetrics(data, kept), p)
  {
    hide CleanKey, NamesOf;
  }

  /** Every configured percentile's size and figures are published under its own five names; the
      names are absent when the slice is empty. */
  lemma SummaryShowsPercent(key: string, samples: seq<real>, timerCount: real, cfg: Settings, i: nat)
    requires samples != [] && i < |cfg.percents| && ArePrinted(cfg.percents)
    ensures var p, data := cfg.percents[i], Summary(key, Sort(samples), timerCount, cfg);
      var k := ReportedSize(samples, p);
      if k == 0 then Omits(data, p)
      else Publishes(data, cfg.kept, p, k, SliceFigures(Sort(samples), p.value))
  {
    hide SliceFigures, SliceSize, FullSummary, FilterTimerMetrics, Omits, Shows, Publishes, IsPlainText;
    var s, p := Sort(samples), cfg.percents[i];
    PercentIsReported(s, cfg.percents, i);
    FullReports(key, s, timerCount, cfg, p);
    var full, k := FullSummary(key, s, timerCount, cfg), ReportedSize(s, p);
    if k == 0 {
      FilterOmits(full, cfg.kept, p);
    } else {
      FilterPublishes(full, cfg.kept, p, k, SliceFigures(s, p.value));
    }
  }

  // ----- overall figures

  lemma {:induction false} InsertSquares(x: real, s: seq<real>)
    ensures SumSquares(Insert(x, s)) == SumSquares([x]) + SumSquares(s)
  {
    hide SumSquares;
    if s == [] || x <= s[0] {
      SumSquaresConcat([x], s);
    } else {
      InsertSquares(x, s[1..]);
      SumSquaresConcat([s[0]], Insert(x, s[1..]));
      SumSquaresConcat([s[0]], s[1..]);
      assert [s[0]] + s[1..] == s;
    }
  }

  lemma {:induction false} SortSquares(s: seq<real>)
    ensures SumSquares(Sort(s)) == SumSquares(s)
  {
    hide SumSquares;
    if s != [] {
      SortSquares(s[1..]);
      InsertSquares(s[0], Sort(s[1..]));
      SumSquaresConcat([s[0]], s[1..]);
      assert [s[0]] + s[1..] == s;
    }
  }

  lemma SameVariance(v: real, w: real, squares: real, sum: real, n: real)
    requires n > 0.0 && v * n == squares - sum * sum / n && w * n == squares - sum * sum / n
    ensures v == w
  {
    assert (v - w) * n == 0.0;
  }

  /** The overall figures do not depend on the order of arrival. */
  lemma SortFigures(samples: seq<real>)
    requires samples != []
    ensures Sum(Sort(samples)) == Sum(samples) && SumSquares(Sort(samples)) == SumSquares(samples)
    ensures Mean(Sort(samples)) == Mean(samples) && Variance(Sort(samples)) == Variance(samples)
  {
    hide Sort, Sum, SumSquares, Variance;
    var s := Sort(samples);
    SortSum(samples);
    SortSquares(samples);
    VarianceIdentity(samples);
    VarianceIdentity(s);
    var n := |samples| as real;
    assert |s| as real == n;
    assert Variance(s) * n == SumSquares(samples) - Sum(samples) * Sum(samples) / n;
    SameVariance(Variance(s), Variance(samples), SumSquares(samples), Sum(samples), n);
  }

  ghost predicate IsLeast(x: real, samples: seq<real>)
  {
    x in samples && forall y <- samples :: x <= y
  }

  ghost predicate IsGreatest(x: real, samples: seq<real>)
  {
    x in samples && forall y <- samples :: y <= x
  }

  lemma ExtremesOfSort(samples: seq<real>)
    requires samples != []
    ensures IsLeast(Sort(samples)[0], samples) && IsGreatest(Sort(samples)[|samples| - 1], samples)
  {
    hide Sort;
    var s := Sort(samples);
    var lo, hi := s[0], s[|s| - 1];
    assert lo in multiset(s) && hi in multiset(s);
    assert lo in samples && hi in samples;
    forall y <- samples
      ensures lo <= y <= hi
    {
      assert y in multiset(samples);
      SortedHeadIsLeast(s, y);
      SortedLastIsGreatest(s, y);
    }
  }

  /** `data` holds f under `name`. */
  predicate Holds(data: TimerData, name: string, f: Field)
  {
    name in data && data[name] == f
  }

  const RANGE_NAMES := {"std", "upper", "lower", "count", "count_ps"}

  lemma RangeHolds(data: TimerData, s: seq<real>, timerCount: real, interval: PositiveReal)
    requires s != []
    ensures var d := WithRange(data, s, timerCount, interval);
      && Holds(d, "std", RootOf(Variance(s)))
      && Holds(d, "upper", Number(s[|s| - 1])) && Holds(d, "lower", Number(s[0]))
      && Holds(d, "count", Number(timerCount))
      && Holds(d, "count_ps", Number(timerCount / (interval / 1000.0)))
  {
    hide Variance;
  }

  lemma TotalsHold(data: TimerData, s: seq<real>)
    requires s != []
    ensures var d := WithTotals(data, s);
      && Holds(d, "sum", Number(Sum(s))) && Holds(d, "sum_squares", Number(SumSquares(s)))
      && Holds(d, "mean", Number(Mean(s))) && Holds(d, "median", Number(Median(s)))
      && (forall name <- RANGE_NAMES :: (name in data ==> Holds(d, name, data[name])))
  {
    hide Median, Mean, Sum, SumSquares;
  }

  lemma WithOverallHolds(data: TimerData, s: seq<real>, timerCount: real, interval: PositiveReal)
    requires s != []
    ensures OverallHolds(WithOverall(data, s, timerCount, interval), s, timerCount, interval)
  {
    hide WithRange, WithTotals, Variance, Sum, SumSquares, Mean, Median;
    RangeHolds(data, s, timerCount, interval);
    TotalsHold(WithRange(data, s, timerCount, interval), s);
  }

  ghost predicate OverallHolds(d: TimerData, s: seq<real>, timerCount: real, interval: PositiveReal)
    requires s != []
  {
    && Holds(d, "std", RootOf(Variance(s)))
    && Holds(d, "upper", Number(s[|s| - 1])) && Holds(d, "lower", Number(s[0]))
    && Holds(d, "count", Number(timerCount))
    && Holds(d, "count_ps", Number(timerCount / (interval / 1000.0)))
    && Holds(d, "sum", Number(Sum(s))) && Holds(d, "sum_squares", Number(SumSquares(s)))
    && Holds(d, "mean", Number(Mean(s))) && Holds(d, "median", Number(Median(s)))
  }

  lemma OverallShown(key: string, s: seq<real>, timerCount: real, cfg: Settings)
    requires s != []
    ensures OverallHolds(FullSummary(key, s, timerCount, cfg), s, timerCount, cfg.interval)
    ensures var bins := BinsFor(key, cfg.histogram);
      bins != [] ==>
        Holds(FullSummary(key, s, timerCount, cfg), "histogram", Histogram(BinCounts(s, bins, |bins|)))
  {
    hide PercentData, WithOverall, BinCounts, BinsFor, Variance, Sum, SumSquares, Mean, Median;
    WithOverallHolds(PercentData(s, cfg.percents), s, timerCount, cfg.interval);
  }

  lemma FilterHolds(full: TimerData, kept: seq<string>, name: string, f: Field)
    requires Holds(full, name, f)
    ensures ShowsAs(FilterTimerMetrics(full, kept), kept, name, f)
  {
    hide FilterTimerMetrics;
    FilterShows(full, kept, name);
  }

  /** m lies as far above the lower middle sample as below the upper one; with an odd number of
      samples the two are one. */
  ghost predicate IsMiddle(m: real, samples: seq<real>)
    requires samples != []
  {
    var s := Sort(samples);
    m - s[(|s| - 1) / 2] == s[|s| / 2] - m
  }

  lemma MedianIsMiddle(samples: seq<real>)
    requires samples != []
    ensures IsMiddle(Median(Sort(samples)), samples)
  {
    hide Sort;
    var n := |Sort(samples)|;
    if n % 2 == 1 {
      assert (n - 1) / 2 == n / 2;
    } else {
      assert (n - 1) / 2 == n / 2 - 1;
    }
  }

  /** n times over, x is the total. */
  ghost predicate IsShare(x: real, total: real, n: real)
  {
    x * n == total
  }

  /** The one-pass formula of the variance. */
  ghost predicate IsSpread(variance: real, squares: real, sum: real, n: real)
  {
    n > 0.0 && variance * n == squares - sum * sum / n
  }

  /** The figures over all samples of a timer. */
  datatype Overall = Overall(lower: real, upper: real, mean: real, variance: real, median: real)

  /** The figures are those of the samples as they arrived: the extremes, the mean as the sum's equal
      share, the variance by the one-pass formula, and the median. */
  ghost predicate AreFigures(o: Overall, samples: seq<real>)
    requires samples != []
  {
    && IsLeast(o.lower, samples) && IsGreatest(o.upper, samples)
    && IsShare(o.mean, Sum(samples), |samples| as real)
    && IsSpread(o.variance, SumSquares(samples), Sum(samples), |samples| as real)
    && IsMiddle(o.median, samples)
  }

  function SortedFigures(s: seq<real>): Overall
    requires s != []
  {
    Overall(s[0], s[|s| - 1], Mean(s), Variance(s), Median(s))
  }

  lemma SortedFiguresAre(samples: seq<real>)
    requires samples != []
    ensures AreFigures(SortedFigures(Sort(samples)), samples)
  {
    hide Sort, IsLeast, IsGreatest, IsMiddle, Mean, Variance, Median, Sum, SumSquares, IsShare, IsSpread;
    SharesAddUp(samples);
    SpreadOf(samples);
    SortFigures(samples);
    ExtremesOfSort(samples);
    MedianIsMiddle(samples);
  }

  /** The overall figures stand under their names, as far as the filter lets these through. */
  ghost predicate ShowsOverall(data: TimerData, kept: seq<string>, o: Overall, sum: real, squares: real,
                               count: real, perSecond: real)
  {
    && ShowsAs(data, kept, "lower", Number(o.lower)) && ShowsAs(data, kept, "upper", Number(o.upper))
    && ShowsAs(data, kept, "std", RootOf(o.variance))
    && ShowsAs(data, kept, "count", Number(count)) && ShowsAs(data, kept, "count_ps", Number(perSecond))
    && ShowsAs(data, kept, "sum", Number(sum)) && ShowsAs(data, kept, "sum_squares", Number(squares))
    && ShowsAs(data, kept, "mean", Number(o.mean)) && ShowsAs(data, kept, "median", Number(o.median))
  }

  lemma FilterShowsOverall(full: TimerData, kept: seq<string>, s: seq<real>, timerCount: real,
                           interval: PositiveReal)
    requires s != [] && OverallHolds(full, s, timerCount, interval)
    ensures ShowsOverall(FilterTimerMetrics(full, kept), kept, SortedFigures(s), Sum(s), SumSquares(s),
                         timerCount, timerCount / (interval / 1000.0))
  {
    hide Mean, Variance, Median, Sum, SumSquares, ShowsAs, FilterTimerMetrics, Holds;
    FilterHolds(full, kept, "lower", Number(s[0]));
    FilterHolds(full, kept, "upper", Number(s[|s| - 1]));
    FilterHolds(full, kept, "std", RootOf(Variance(s)));
    FilterHolds(full, kept, "count", Number(timerCount));
    FilterHolds(full, kept, "count_ps", Number(timerCount / (interval / 1000.0)));
    FilterHolds(full, kept, "sum", Number(Sum(s)));
    FilterHolds(full, kept, "sum_squares", Number(SumSquares(s)));
    FilterHolds(full, kept, "mean", Number(Mean(s)));
    FilterHolds(full, kept, "median", Number(Median(s)));
  }

  /** The published summary shows, under their names and as far as the filter lets these through, the
      figures of the samples as they arrived, the timer's counter and the counter per second. */
  lemma SummaryShowsOverall(key: string, samples: seq<real>, timerCount: real, cfg: Settings)
      returns (o: Overall, perSecond: real)
    requires samples != []
    ensures AreFigures(o, samples) && IsShare(perSecond, timerCount, cfg.interval / 1000.0)
    ensures ShowsOverall(Summary(key, Sort(samples), timerCount, cfg), cfg.kept, o, Sum(samples),
                         SumSquares(samples), timerCount, perSecond)
  {
    hide FullSummary, SortedFigures, Sum, SumSquares, Sort, AreFigures, ShowsOverall, OverallHolds,
         FilterTimerMetrics, IsShare;
    var s := Sort(samples);
    perSecond := timerCount / (cfg.interval / 1000.0);
    ShareOfQuotient(timerCount, cfg.interval / 1000.0);
    o := SortedFigures(s);
    SortedFiguresAre(samples);
    SortFigures(samples);
    OverallShown(key, s, timerCount, cfg);
    FilterShowsOverall(FullSummary(key, s, timerCount, cfg), cfg.kept, s, timerCount, cfg.interval);
  }

  lemma SharesAddUp(s: seq<real>)
    requires s != []
    ensures IsShare(Mean(s), Sum(s), |s| as real)
  {
    hide Sum;
  }

  lemma SpreadOf(s: seq<real>)
    requires s != []
    ensures IsSpread(Variance(s), SumSquares(s), Sum(s), |s| as real)
  {
    VarianceIdentity(s);
  }

  lemma ShareOfQuotient(total: real, n: real)
    requires n > 0.0
    ensures IsShare(total / n, total, n)
  {
  }

  /** A timer without samples publishes a count of 0 and nothing else. */
  lemma IdleSummary(key: string, timerCount: real, cfg: Settings, name: string)
    ensures var data := Summary(key, Sort([]), timerCount, cfg);
      && (name in data <==> name in {"count", "count_ps"} && Keeps(cfg.kept, name))
      && (name in data ==> data[name] == Number(0.0))
  {
  }

  // ----- a percentile's figures

  /** The share of n samples that a percentile stands for, before rounding. */
  function Scaled(pct: real, n: nat): real
  {
    (if pct < 0.0 then -pct else pct) / 100.0 * n as real
  }

  ghost predicate IsRounded(k: int, x: real)
  {
    k as real - 0.5 <= x < k as real + 0.5
  }

  /** The part is as large as a percentile asks for, and no other sample lies beyond it: below a
      lowest part, above a top part. */
  ghost predicate IsPercentile(part: seq<real>, samples: seq<real>, pct: real)
  {
    && multiset(part) <= multiset(samples)
    && (if |samples| == 1 then |part| == 1 else IsRounded(|part|, Scaled(pct, |samples|)))
    && (if pct > 0.0 then Precedes(multiset(part), multiset(samples) - multiset(part))
        else Precedes(multiset(samples) - multiset(part), multiset(part)))
  }

  ghost predicate Precedes(a: multiset<real>, b: multiset<real>)
  {
    forall x, y :: x in a && y in b ==> x <= y
  }

  lemma CutPrecedes(s: seq<real>, cut: nat)
    requires Sorted(s) && cut <= |s|
    ensures Precedes(multiset(s[..cut]), multiset(s[cut..]))
  {
    var low, high := s[..cut], s[cut..];
    forall x, y | x in multiset(low) && y in multiset(high)
      ensures x <= y
    {
      var i :| 0 <= i < |low| && low[i] == x;
      var j :| 0 <= j < |high| && high[j] == y;
      assert s[i] == x && s[cut + j] == y;
    }
  }

  /** What a cut leaves on its two sides. */
  lemma SortedCut(s: seq<real>, cut: nat)
    requires Sorted(s) && cut <= |s|
    ensures multiset(s) - multiset(s[..cut]) == multiset(s[cut..])
    ensures multiset(s) - multiset(s[cut..]) == multiset(s[..cut])
    ensures Precedes(multiset(s[..cut]), multiset(s[cut..]))
    ensures Sorted(s[..cut]) && Sorted(s[cut..])
  {
    CutPrecedes(s, cut);
    SortedParts(s, 0, cut);
    SortedParts(s, cut, |s|);
    hide Precedes, Sorted;
    assert s[0..cut] == s[..cut];
    assert s == s[..cut] + s[cut..];
  }

  lemma EndsOfSorted(s: seq<real>)
    requires Sorted(s) && s != []
    ensures IsLeast(s[0], s) && IsGreatest(s[|s| - 1], s)
  {
  }

  lemma SliceIsPercentile(samples: seq<real>, pct: real, part: seq<real>)
    requires samples != [] && Slice(Sort(samples), pct) == Some(part)
    ensures IsPercentile(part, samples, pct)
    ensures part != [] ==> IsLeast(part[0], part) && IsGreatest(part[|part| - 1], part)
  {
    hide Sort, SliceSize, Slice, IsLeast, IsGreatest, IsRounded, Scaled, Precedes, Sorted;
    SliceIsPart(Sort(samples), pct, part);
    SizeIsRounded(pct, |samples|);
    var s, k := Sort(samples), |part|;
    SortedCut(s, if pct > 0.0 then k else |s| - k);
    if part != [] { EndsOfSorted(part); }
  }

  lemma SizeIsRounded(pct: real, n: nat)
    ensures IsRounded(SliceSize(pct, n), Scaled(pct, n))
  {
  }

  lemma FiguresOfSlice(s: seq<real>, pct: real, part: seq<real>)
    requires s != [] && Slice(s, pct) == Some(part) && part != []
    ensures SliceFigures(s, pct)
         == Figures(Number(Mean(part)), Number(if pct > 0.0 then part[|part| - 1] else part[0]),
                    Number(Sum(part)), Number(SumSquares(part)))
  {
    hide Sum, SumSquares, Slice;
  }

  /** The scaled size rounds to at least one sample and not so far that figures are lost. */
  ghost predicate HasFigures(samples: seq<real>, pct: real)
  {
    var n, size := |samples| as real, Scaled(pct, |samples|);
    |samples| == 1 || 0.5 <= size < if pct > 0.0 then n + 0.5 else n - 0.5
  }

  lemma SliceIsPresent(samples: seq<real>, pct: real) returns (part: seq<real>)
    requires samples != [] && HasFigures(samples, pct)
    ensures Slice(Sort(samples), pct) == Some(part)
    ensures part != [] && |part| == if |samples| == 1 then 1 else SliceSize(pct, |samples|)
  {
    hide Sort, SliceSize, Slice, Scaled;
    var s := Sort(samples);
    SliceExistsIff(s, pct);
    ScaledIs(pct, |s|);
    SizeIsRounded(pct, |samples|);
    part := Slice(s, pct).value;
    SliceIsPart(s, pct, part);
  }

  lemma ScaledIs(pct: real, n: nat)
    ensures Scaled(pct, n) == Abs(pct) / 100.0 * n as real
  {
  }

  /** When a configured percentile has figures they are published, as far as the filter lets their
      names through, and are those of the samples it stands for: size, sum, sum of squares, mean as
      the sum's equal share, and the sample at the boundary. */
  lemma SummaryShowsSlice(key: string, samples: seq<real>, timerCount: real, cfg: Settings, i: nat)
      returns (part: seq<real>, mean: real, boundary: real)
    requires samples != [] && i < |cfg.percents| && ArePrinted(cfg.percents)
    requires HasFigures(samples, cfg.percents[i].value)
    ensures IsPercentile(part, samples, cfg.percents[i].value) && part != []
    ensures IsShare(mean, Sum(part), |part| as real)
    ensures if cfg.percents[i].value > 0.0 then IsGreatest(boundary, part) else IsLeast(boundary, part)
    ensures Publishes(Summary(key, Sort(samples), timerCount, cfg), cfg.kept, cfg.percents[i], |part|,
                      Figures(Number(mean), Number(boundary), Number(Sum(part)), Number(SumSquares(part))))
  {
    hide Sort, Slice, SliceFigures, SliceSize, Summary, Publishes, Omits, IsPercentile, IsLeast, IsGreatest, Sum,
         SumSquares, Mean, HasFigures, ArePrinted, IsShare;
    var p := cfg.percents[i];
    part := SliceIsPresent(samples, p.value);
    SharesAddUp(part);
    mean := Mean(part);
    boundary := if p.value > 0.0 then part[|part| - 1] else part[0];
    SliceIsPercentile(samples, p.value, part);
    SummaryShowsPercent(key, samples, timerCount, cfg, i);
    FiguresOfSlice(Sort(samples), p.value, part);
  }

  /** What stands there otherwise: nothing numeric but the size, and for a top percentile of exactly
      all samples the least one as its boundary. */
  lemma LostFigures(samples: seq<real>, pct: real)
    requires samples != [] && Slice(Sort(samples), pct).None?
    ensures var f, s := SliceFigures(Sort(samples), pct), Sort(samples);
      && f.mean == NotANumber
      && (pct > 0.0 ==> f.sum == f.sumSquares == f.boundary == Undefined)
      && (pct <= 0.0 ==> f.sum == f.sumSquares == NotANumber)
      && (pct <= 0.0 ==> f.boundary == if SliceSize(pct, |s|) == |s| then Number(s[0]) else Undefined)
  {
  }

  /** The published histogram shows under every name the count of its last bin, over the samples
      as they arrived; its values total the samples below the largest limit exactly when no
      sample lands in a bin whose name a later bin repeats. */
  lemma SummaryShowsHistogram(key: string, samples: seq<real>, timerCount: real, cfg: Settings, largest: Limit)
      returns (h: map<string, nat>)
    requires samples != [] && IsLargest(largest, BinsFor(key, cfg.histogram))
    ensures ShowsAs(Summary(key, Sort(samples), timerCount, cfg), cfg.kept, "histogram", Histogram(h))
    ensures var bins := BinsFor(key, cfg.histogram);
      && (forall i :: 0 <= i < |bins| && !IsOverwritten(bins, i) ==>
            BinName(bins[i]) in h && h[BinName(bins[i])] == BinCount(samples, bins, i))
      && (Total(h) == CountUnder(samples, largest) <==>
            forall t :: 0 <= t < |samples| ==> !IsLost(samples, bins, t))
    ensures largest.Unbounded? ==> CountUnder(samples, largest) == |samples|
  {
    var s, bins := Sort(samples), BinsFor(key, cfg.histogram);
    assert bins != [];
    hide FullSummary, Sort, FilterTimerMetrics, BinsFor, BinCounts, BinCount, BinName, IsLost, IsLargest, ShowsAs;
    h := BinCounts(s, bins, |bins|);
    OverallShown(key, s, timerCount, cfg);
    FilterHolds(FullSummary(key, s, timerCount, cfg), cfg.kept, "histogram", Histogram(h));
    HistogramTotal(samples, bins, largest);
    BinCountsOfSort(samples, bins, |bins|);
    forall i | 0 <= i < |bins| && !IsOverwritten(bins, i)
      ensures BinName(bins[i]) in h && h[BinName(bins[i])] == BinCount(samples, bins, i)
    {
      BinShown(samples, bins, |bins|, i);
    }
  }

  // ----- the filter's names

  lemma {:induction false} DigitsStartAt(a: string, digits: string)
    requires a == "" || !IsDigit(a[|a| - 1])
    requires forall i :: 0 <= i < |digits| ==> IsDigit(digits[i])
    ensures DigitsStart(a + digits) == |a|
    decreases |digits|
  {
    if digits == "" {
      assert a + digits == a;
    } else {
      var m := |digits| - 1;
      DigitsStartAt(a, digits[..m]);
      assert (a + digits)[..|a + digits| - 1] == a + digits[..m];
    }
  }

  lemma StripTop(metric: string, digits: string)
    requires digits != "" && forall i :: 0 <= i < |digits| ==> IsDigit(digits[i])
    ensures CleanKey(metric + "_top" + digits) == metric + "_percent"
  {
    hide DigitsStart;
    var b := metric + "_top";
    DigitsStartAt(b, digits);
    assert (b + digits)[..|b|] == b;
    assert b[|b| - 1..] == "p" && b[|b| - 4..] == "_top" && b[..|b| - 4] == metric;
  }

  /** The filter reads `mean_90` and `mean_top90` as `mean_percent`. The percentile 99.9 is
      published as `mean_99_9`, of which only the last group is replaced. */
  lemma CleanKeyStripsPercent(metric: string, digits: string)
    requires digits != "" && forall i :: 0 <= i < |digits| ==> IsDigit(digits[i])
    ensures CleanKey(metric + "_" + digits) == metric + "_percent"
    ensures CleanKey(metric + "_top" + digits) == metric + "_percent"
  {
    hide DigitsStart;
    StripTop(metric, digits);
    var a := metric + "_";
    DigitsStartAt(a, digits);
    assert (a + digits)[..|a|] == a;
    assert a[|a| - 1..] == "_" && a[..|a| - 1] == metric;
  }

  /** Any other name stands for itself: one that does not end in digits, or whose digits follow
      neither `_` nor `_top`. */
  lemma OtherNamesStay(head: string, digits: string)
    requires forall i :: 0 <= i < |digits| ==> IsDigit(digits[i])
    requires head == "" || !IsDigit(head[|head| - 1])
    requires digits == "" || (!EndsWith(head, "_") && !EndsWith(head, "_top"))
    ensures CleanKey(head + digits) == head + digits
  {
    hide DigitsStart;
    DigitsStartAt(head, digits);
    assert (head + digits)[..|head|] == head;
  }

  /** The filter reads a percentile's name as `_percent` exactly when the percentile is whole. */
  lemma PercentIsStrippedIff(metric: string, n: Printed)
    requires IsPrinted(n)
    ensures CleanKey(metric + "_" + CleanPercent(Text(n))) == metric + "_percent" <==> '.' !in Text(n)
  {
    hide CleanKey, CleanPercent, DigitsStart;
    CleanText(n);
    if n.fraction == "" {
      CleanKeyStripsPercent(metric, n.whole);
      assert Tag(n) == if n.negative then "top" + n.whole else n.whole;
      assert metric + "_top" + n.whole == metric + "_" + ("top" + n.whole);
      assert '.' !in Text(n);
    } else {
      var head := metric + "_" + (if n.negative then "top" else "") + n.whole;
      CleanKeyStripsPercent(head, n.fraction);
      assert metric + "_" + Tag(n) == head + "_" + n.fraction;
      assert |head + "_percent"| > |metric + "_percent"|;
      assert Text(n)[|Text(n)| - |n.fraction| - 1] == '.';
    }
  }

  lemma FractionalPercentIsNotStripped(metric: string)
    ensures CleanKey(metric + "_99_9") == metric + "_99_percent"
  {
    CleanKeyStripsPercent(metric + "_99", "9");
    assert metric + "_99" + "_" + "9" == metric + "_99_9";
    assert metric + "_99" + "_percent" == metric + "_99_percent";
  }
}
