/** What the published histogram says about the samples: each bin's count, the total, and what a
    configuration with repeated bin names loses. */
module HistogramTheorems {
  import opened JsStrings
  import opened Samples
  import opened TimerMetrics

  /** Bin counts do not depend on the order in which samples arrived. */
  lemma {:induction false} BinCountOfInsert(x: real, s: seq<real>, bins: seq<Limit>, j: nat)
    requires j < |bins|
    ensures BinCount(Insert(x, s), bins, j)
         == BinCount(s, bins, j) + if Lands(x, bins, j) then 1 else 0
  {
    if s == [] || x <= s[0] {
      BinCountConcat([x], s, bins, j);
      BinCountOfOne(x, bins, j);
    } else {
      BinCountOfInsert(x, s[1..], bins, j);
      BinCountConcat([s[0]], Insert(x, s[1..]), bins, j);
      BinCountConcat([s[0]], s[1..], bins, j);
      assert [s[0]] + s[1..] == s;
    }
  }

  lemma BinCountOfOne(x: real, bins: seq<Limit>, j: nat)
    requires j < |bins|
    ensures BinCount([x], bins, j) == if Lands(x, bins, j) then 1 else 0
  {
    assert [x][..0] == [];
  }

  lemma {:induction false} BinCountConcat(a: seq<real>, b: seq<real>, bins: seq<Limit>, j: nat)
    requires j < |bins|
    ensures BinCount(a + b, bins, j) == BinCount(a, bins, j) + BinCount(b, bins, j)
    decreases |b|
  {
    if b == [] {
      assert a + b == a;
    } else {
      var m := |b| - 1;
      BinCountConcat(a, b[..m], bins, j);
      assert (a + b)[..|a + b| - 1] == a + b[..m];
    }
  }

  lemma {:induction false} BinCountOfSort(s: seq<real>, bins: seq<Limit>, j: nat)
    requires j < |bins|
    ensures BinCount(Sort(s), bins, j) == BinCount(s, bins, j)
  {
    if s != [] {
      BinCountOfSort(s[1..], bins, j);
      BinCountOfInsert(s[0], Sort(s[1..]), bins, j);
      BinCountConcat([s[0]], s[1..], bins, j);
      BinCountOfOne(s[0], bins, j);
      assert [s[0]] + s[1..] == s;
    }
  }

  function TotalCount(s: seq<real>, bins: seq<Limit>, j: nat): nat
    requires j <= |bins|
  {
    if j == 0 then 0 else TotalCount(s, bins, j - 1) + BinCount(s, bins, j - 1)
  }

  lemma {:induction false} CountUnderAnyStep(s: seq<real>, bins: seq<Limit>, j: nat)
    requires j < |bins|
    ensures CountUnderAny(s, bins[..j + 1]) == CountUnderAny(s, bins[..j]) + BinCount(s, bins, j)
  {
    if s != [] {
      CountUnderAnyStep(s[..|s| - 1], bins, j);
      UnderAnyStep(s[|s| - 1], bins, j);
    }
  }

  lemma {:induction false} NothingUnderNoBins(s: seq<real>)
    ensures CountUnderAny(s, []) == 0
  {
    if s != [] { NothingUnderNoBins(s[..|s| - 1]); }
  }

  /** The frequencies of the first j bins total the samples below one of their limits. */
  lemma {:induction false} FrequenciesPartition(s: seq<real>, bins: seq<Limit>, j: nat)
    requires j <= |bins|
    ensures TotalCount(s, bins, j) == CountUnderAny(s, bins[..j])
  {
    if j == 0 {
      NothingUnderNoBins(s);
      assert bins[..0] == [];
    } else {
      FrequenciesPartition(s, bins, j - 1);
      CountUnderAnyStep(s, bins, j - 1);
    }
  }

  /** Being below some limit is being below the largest one. */
  ghost predicate IsLargest(limit: Limit, bins: seq<Limit>)
  {
    && limit in bins
    && forall b <- bins :: Covers(limit, b)
  }

  /** How many samples are below a limit. */
  function CountUnder(s: seq<real>, limit: Limit): (n: nat)
    ensures n <= |s|
  {
    if s == [] then 0
    else CountUnder(s[..|s| - 1], limit) + if Under(s[|s| - 1], limit) then 1 else 0
  }

  lemma {:induction false} UnderLargest(s: seq<real>, bins: seq<Limit>, largest: Limit)
    requires IsLargest(largest, bins)
    ensures CountUnderAny(s, bins) == CountUnder(s, largest)
    ensures largest.Unbounded? ==> CountUnder(s, largest) == |s|
  {
    if s != [] {
      UnderLargest(s[..|s| - 1], bins, largest);
    }
  }

  lemma {:induction false} EmptyBinIff(s: seq<real>, bins: seq<Limit>, i: nat)
    requires i < |bins|
    ensures BinCount(s, bins, i) == 0 <==> forall t :: 0 <= t < |s| ==> !Lands(s[t], bins, i)
  {
    if s != [] {
      var m := |s| - 1;
      EmptyBinIff(s[..m], bins, i);
      assert forall t :: 0 <= t < m ==> s[..m][t] == s[t];
    }
  }

  // ----- the published object

  /** The sum of all values of a histogram. */
  ghost function Total(h: map<string, nat>): nat
    decreases |h|
  {
    if h == map[] then 0
    else
      var k :| k in h;
      h[k] + Total(h - {k})
  }

  lemma {:induction false} TotalWithout(h: map<string, nat>, k: string)
    requires k in h
    ensures Total(h) == h[k] + Total(h - {k})
    decreases |h|
  {
    var x :| x in h && Total(h) == h[x] + Total(h - {x});
    if x != k {
      TotalWithout(h - {x}, k);
      TotalWithout(h - {k}, x);
      assert h - {x} - {k} == h - {k} - {x};
    }
  }

  lemma TotalPut(h: map<string, nat>, k: string, n: nat)
    ensures Total(h[k := n]) == Total(h) + n - if k in h then h[k] else 0
  {
    var put := h[k := n];
    TotalWithout(put, k);
    assert put - {k} == h - {k};
    if k in h {
      TotalWithout(h, k);
    } else {
      assert h - {k} == h;
    }
  }

  ghost predicate IsOverwritten(bins: seq<Limit>, i: nat)
    requires i < |bins|
  {
    RepeatedBefore(bins, i, |bins|)
  }

  /** Among the first j bins no sample of an overwritten one is counted. */
  ghost predicate NothingLost(s: seq<real>, bins: seq<Limit>, j: nat)
    requires j <= |bins|
  {
    forall i :: 0 <= i < j && RepeatedBefore(bins, i, j) ==> BinCount(s, bins, i) == 0
  }

  /** The last of the first j bins that has a name. */
  lemma {:induction false} LastNamed(s: seq<real>, bins: seq<Limit>, j: nat, name: string) returns (i: nat)
    requires j <= |bins| && name in BinCounts(s, bins, j)
    ensures i < j && BinName(bins[i]) == name && !RepeatedBefore(bins, i, j)
  {
    if BinName(bins[j - 1]) == name {
      i := j - 1;
    } else {
      i := LastNamed(s, bins, j - 1, name);
    }
  }

  /** Bin m joins the first m: it overwrites the count of the last bin of its name, if any. */
  lemma LossStep(s: seq<real>, bins: seq<Limit>, m: nat)
    requires m < |bins|
    ensures var h, name := BinCounts(s, bins, m), BinName(bins[m]);
      NothingLost(s, bins, m + 1) <==> NothingLost(s, bins, m) && (name in h ==> h[name] == 0)
  {
    hide BinCount;
    var h, name := BinCounts(s, bins, m), BinName(bins[m]);
    forall i | 0 <= i < m
      ensures RepeatedBefore(bins, i, m + 1) <==> RepeatedBefore(bins, i, m) || BinName(bins[i]) == name
      ensures BinName(bins[i]) == name && !RepeatedBefore(bins, i, m) ==>
                name in h && h[name] == BinCount(s, bins, i)
    {
      if !RepeatedBefore(bins, i, m) { BinShown(s, bins, m, i); }
    }
    assert !RepeatedBefore(bins, m, m + 1);
    if name in h {
      var i := LastNamed(s, bins, m, name);
      BinShown(s, bins, m, i);
    }
  }

  lemma TotalStep(s: seq<real>, bins: seq<Limit>, m: nat)
    requires m < |bins|
    ensures var h, name := BinCounts(s, bins, m), BinName(bins[m]);
      Total(BinCounts(s, bins, m + 1)) == Total(h) + BinCount(s, bins, m) - if name in h then h[name] else 0
  {
    hide BinCount, BinName, Total;
    TotalPut(BinCounts(s, bins, m), BinName(bins[m]), BinCount(s, bins, m));
  }

  /** The published counts total at most the landed samples, and exactly those when nothing is
      lost. */
  lemma {:induction false} PublishedTotal(s: seq<real>, bins: seq<Limit>, j: nat)
    requires j <= |bins|
    ensures Total(BinCounts(s, bins, j)) <= TotalCount(s, bins, j)
    ensures Total(BinCounts(s, bins, j)) == TotalCount(s, bins, j) <==> NothingLost(s, bins, j)
  {
    if j > 0 {
      hide NothingLost, BinCount, BinCounts, BinName, Total;
      PublishedTotal(s, bins, j - 1);
      LossStep(s, bins, j - 1);
      TotalStep(s, bins, j - 1);
    }
  }

  /** Sorting the samples changes no count. */
  lemma {:induction false} BinCountsOfSort(s: seq<real>, bins: seq<Limit>, j: nat)
    requires j <= |bins|
    ensures BinCounts(Sort(s), bins, j) == BinCounts(s, bins, j)
  {
    if j > 0 {
      hide Sort, BinCount, BinName;
      BinCountsOfSort(s, bins, j - 1);
      BinCountOfSort(s, bins, j - 1);
    }
  }

  /** A sample lands in an overwritten bin. */
  ghost predicate IsLost(s: seq<real>, bins: seq<Limit>, t: nat)
    requires t < |s|
  {
    exists i :: 0 <= i < |bins| && IsOverwritten(bins, i) && Lands(s[t], bins, i)
  }

  lemma NothingLostIff(s: seq<real>, bins: seq<Limit>)
    ensures NothingLost(s, bins, |bins|) <==> forall t :: 0 <= t < |s| ==> !IsLost(s, bins, t)
  {
    hide BinCount, Lands, RepeatedBefore;
    forall i | 0 <= i < |bins|
      ensures BinCount(s, bins, i) == 0 <==> forall t :: 0 <= t < |s| ==> !Lands(s[t], bins, i)
    {
      EmptyBinIff(s, bins, i);
    }
    if i :| 0 <= i < |bins| && RepeatedBefore(bins, i, |bins|) && BinCount(s, bins, i) != 0 {
      var t :| 0 <= t < |s| && Lands(s[t], bins, i);
      assert IsOverwritten(bins, i) && IsLost(s, bins, t);
    }
    if t :| 0 <= t < |s| && IsLost(s, bins, t) {
      var i :| 0 <= i < |bins| && IsOverwritten(bins, i) && Lands(s[t], bins, i);
      assert BinCount(s, bins, i) != 0 && RepeatedBefore(bins, i, |bins|);
    }
  }

  /** The published counts total the samples below the largest limit, and every sample when `inf`
      is configured, exactly when no sample lands in a bin whose name a later bin repeats. */
  lemma HistogramTotal(samples: seq<real>, bins: seq<Limit>, largest: Limit)
    requires IsLargest(largest, bins)
    ensures var h := BinCounts(Sort(samples), bins, |bins|);
      && Total(h) <= CountUnder(samples, largest)
      && (Total(h) == CountUnder(samples, largest) <==>
            forall t :: 0 <= t < |samples| ==> !IsLost(samples, bins, t))
    ensures largest.Unbounded? ==> CountUnder(samples, largest) == |samples|
  {
    hide *;
    BinCountsOfSort(samples, bins, |bins|);
    PublishedTotal(samples, bins, |bins|);
    FrequenciesPartition(samples, bins, |bins|);
    assert bins[..|bins|] == bins;
    UnderLargest(samples, bins, largest);
    NothingLostIff(samples, bins);
  }

  /** Without repeated names nothing is ever lost. */
  lemma DistinctNamesLoseNothing(samples: seq<real>, bins: seq<Limit>, largest: Limit)
    requires IsLargest(largest, bins)
    requires forall i, j :: 0 <= i < j < |bins| ==> BinName(bins[i]) != BinName(bins[j])
    ensures Total(BinCounts(Sort(samples), bins, |bins|)) == CountUnder(samples, largest)
  {
    HistogramTotal(samples, bins, largest);
  }

  // ----- which configurations can lose samples

  /** An earlier limit takes every sample that bin i could hold. */
  ghost predicate IsCovered(bins: seq<Limit>, i: nat)
    requires i < |bins|
  {
    exists j :: 0 <= j < i && Covers(bins[j], bins[i])
  }

  /** The largest of some finite limits, or a number below `start`. */
  lemma {:induction false} HighestBound(bins: seq<Limit>, start: real) returns (x: real)
    requires forall i :: 0 <= i < |bins| ==> bins[i].Below?
    ensures forall i :: 0 <= i < |bins| ==> bins[i].bound <= x
    ensures x == start || exists i :: 0 <= i < |bins| && bins[i].bound == x
  {
    if bins == [] {
      x := start;
    } else {
      var m := |bins| - 1;
      x := HighestBound(bins[..m], start);
      assert forall i :: 0 <= i < m ==> bins[..m][i] == bins[i];
      if bins[m].bound > x {
        x := bins[m].bound;
      }
    }
  }

  /** Some sample lands in a bin exactly when no earlier limit covers it. */
  lemma ReachableIff(bins: seq<Limit>, i: nat)
    requires i < |bins|
    ensures (exists x :: Lands(x, bins, i)) <==> !IsCovered(bins, i)
  {
    var before := bins[..i];
    assert forall j :: 0 <= j < i ==> before[j] == bins[j];
    if IsCovered(bins, i) {
      var j :| 0 <= j < i && Covers(bins[j], bins[i]);
      forall x
        ensures !Lands(x, bins, i)
      {
        assert bins[j] in before;
        assert Under(x, bins[i]) ==> Under(x, bins[j]);
      }
    } else {
      forall j | 0 <= j < i
        ensures before[j].Below? && (bins[i].Below? ==> before[j].bound < bins[i].bound)
      {
        assert !Covers(bins[j], bins[i]);
      }
      var x := HighestBound(before, if bins[i].Below? then bins[i].bound - 1.0 else 0.0);
      assert Lands(x, bins, i);
    }
  }

  /** A configuration publishes every landed sample of every timer exactly when each bin whose
      name a later bin repeats is covered by an earlier limit, and so always empty. */
  lemma RepeatedNamesAreHarmlessIff(bins: seq<Limit>)
    ensures (forall s: seq<real> :: Total(BinCounts(s, bins, |bins|)) == TotalCount(s, bins, |bins|)) <==>
              forall i :: 0 <= i < |bins| && IsOverwritten(bins, i) ==> IsCovered(bins, i)
  {
    hide BinCounts, IsCovered, Lands, TotalCount;
    if forall i :: 0 <= i < |bins| && IsOverwritten(bins, i) ==> IsCovered(bins, i) {
      forall s: seq<real>
        ensures Total(BinCounts(s, bins, |bins|)) == TotalCount(s, bins, |bins|)
      {
        PublishedTotal(s, bins, |bins|);
        forall i | 0 <= i < |bins| && IsOverwritten(bins, i)
          ensures BinCount(s, bins, i) == 0
        {
          ReachableIff(bins, i);
          EmptyBinIff(s, bins, i);
        }
      }
    } else {
      var i :| 0 <= i < |bins| && IsOverwritten(bins, i) && !IsCovered(bins, i);
      ReachableIff(bins, i);
      var x :| Lands(x, bins, i);
      PublishedTotal([x], bins, |bins|);
      EmptyBinIff([x], bins, i);
      assert [x][0] == x;
    }
  }

  /** A bin is named after its limit, with the decimal point as `_`. */
  lemma BinNames(bound: real, whole: string, fraction: string)
    requires '.' !in whole
    ensures BinName(Below(bound, whole)) == "bin_" + whole
    ensures BinName(Below(bound, whole + "." + fraction)) == "bin_" + (whole + "_" + fraction)
    ensures BinName(Unbounded) == "bin_inf"
  {
    ReplaceNone(whole, '.', "_");
    ReplaceAt(whole, '.', fraction, "_");
  }

  /** Two bins of one name: the first one's sample is gone. */
  lemma RepeatedNameLosesSample()
    ensures var ten := Below(10.0, "10"); BinCounts([5.0], [ten, ten], 2) == map["bin_10" := 0]
    ensures BinCounts([5.0], [Unbounded, Unbounded], 2) == map["bin_inf" := 0]
  {
    var ten := Below(10.0, "10");
    SecondIsEmpty(5.0, ten);
    SecondIsEmpty(5.0, Unbounded);
    assert ReplaceFirst("0", '.', "_") == "0" && ReplaceFirst("10", '.', "_") == "10";
    assert BinName(ten) == "bin_10" && BinName(Unbounded) == "bin_inf";
  }

  lemma SecondIsEmpty(x: real, limit: Limit)
    requires Under(x, limit)
    ensures BinCounts([x], [limit, limit], 2) == map[BinName(limit) := 0]
  {
    var bins := [limit, limit];
    assert bins[..1][0] == limit;
    assert !Lands(x, bins, 1);
    EmptyBinIff([x], bins, 1);
    assert BinCounts([x], bins, 0) == map[];
    assert BinCounts([x], bins, 1).Keys == {BinName(limit)};
  }
}
