/** Sums, sorting and rounding over sample lists, and the order statistics the timer
    summary relies on. JavaScript numbers are modelled as reals. */
module Samples {

  /** `Math.round` */
  function Round(x: real): int { (x + 0.5).Floor }

  function Abs(x: real): real { if x < 0.0 then -x else x }

  function Sum(s: seq<real>): real
  {
    if s == [] then 0.0 else Sum(s[..|s| - 1]) + s[|s| - 1]
  }

  function Times(a: real, b: real): real { a * b }

  function Square(x: real): real { Times(x, x) }

  function Squares(s: seq<real>): seq<real>
  {
    if s == [] then [] else Squares(s[..|s| - 1]) + [Square(s[|s| - 1])]
  }

  function SumSquares(s: seq<real>): real { Sum(Squares(s)) }

  /** The sum of the squared distances from c. */
  function Deviation(s: seq<real>, c: real): real
  {
    if s == [] then 0.0 else Deviation(s[..|s| - 1], c) + Square(s[|s| - 1] - c)
  }

  lemma {:induction false} SumConcat(a: seq<real>, b: seq<real>)
    ensures Sum(a + b) == Sum(a) + Sum(b)
    decreases |b|
  {
    if b == [] {
      assert a + b == a;
    } else {
      SumConcat(a, b[..|b| - 1]);
      assert (a + b)[..|a + b| - 1] == a + b[..|b| - 1];
    }
  }

  lemma {:induction false} SquaresConcat(a: seq<real>, b: seq<real>)
    ensures Squares(a + b) == Squares(a) + Squares(b)
    decreases |b|
  {
    if b == [] {
      assert a + b == a;
    } else {
      SquaresConcat(a, b[..|b| - 1]);
      assert (a + b)[..|a + b| - 1] == a + b[..|b| - 1];
      assert (a + b)[|a + b| - 1] == b[|b| - 1];
    }
  }

  lemma SumSquaresConcat(a: seq<real>, b: seq<real>)
    ensures SumSquares(a + b) == SumSquares(a) + SumSquares(b)
  {
    SquaresConcat(a, b);
    SumConcat(Squares(a), Squares(b));
  }

  lemma SumSplit(s: seq<real>, k: nat)
    requires k <= |s|
    ensures Sum(s) == Sum(s[..k]) + Sum(s[k..])
  {
    hide Sum;
    var a, b := s[..k], s[k..];
    assert s == a + b;
    SumConcat(a, b);
  }

  lemma SumSquaresSplit(s: seq<real>, k: nat)
    requires k <= |s|
    ensures SumSquares(s) == SumSquares(s[..k]) + SumSquares(s[k..])
  {
    hide SumSquares;
    var a, b := s[..k], s[k..];
    assert s == a + b;
    SumSquaresConcat(a, b);
  }

  // ----- sorting

  ghost predicate Sorted(s: seq<real>)
  {
    forall i, j :: 0 <= i < j < |s| ==> s[i] <= s[j]
  }

  lemma HeadAndTail(s: seq<real>)
    requires s != []
    ensures multiset(s) == multiset{s[0]} + multiset(s[1..])
    ensures multiset(s[1..]) == multiset(s) - multiset{s[0]}
  {
    assert s == [s[0]] + s[1..];
  }

  lemma HeadAndTailSum(s: seq<real>)
    requires s != []
    ensures Sum(s) == s[0] + Sum(s[1..])
  {
    var h := [s[0]];
    assert s == h + s[1..];
    SumConcat(h, s[1..]);
    assert Sum(h[..0]) == 0.0;
  }

  lemma InitAndLast(s: seq<real>)
    requires s != []
    ensures multiset(s) == multiset(s[..|s| - 1]) + multiset{s[|s| - 1]}
    ensures multiset(s[..|s| - 1]) == multiset(s) - multiset{s[|s| - 1]}
  {
    assert s == s[..|s| - 1] + [s[|s| - 1]];
  }

  function Insert(x: real, s: seq<real>): seq<real>
  {
    if s == [] || x <= s[0] then [x] + s else [s[0]] + Insert(x, s[1..])
  }

  lemma {:induction false} InsertIsPermutation(x: real, s: seq<real>)
    ensures multiset(Insert(x, s)) == multiset{x} + multiset(s)
  {
    if s == [] || x <= s[0] {
    } else {
      HeadAndTail(s);
      InsertIsPermutation(x, s[1..]);
    }
  }

  lemma {:induction false} InsertIsSorted(x: real, s: seq<real>)
    requires Sorted(s)
    ensures Sorted(Insert(x, s))
  {
    if s == [] || x <= s[0] {
    } else {
      InsertIsSorted(x, s[1..]);
      InsertIsPermutation(x, s[1..]);
      var rest := Insert(x, s[1..]);
      forall i | 0 <= i < |rest|
        ensures s[0] <= rest[i]
      {
        assert rest[i] in multiset(rest);
        assert rest[i] == x || rest[i] in multiset(s[1..]);
      }
    }
  }

  /** `samples.sort(function (a, b) { return a - b; })` */
  function Sort(s: seq<real>): (r: seq<real>)
    ensures Sorted(r) && multiset(r) == multiset(s) && |r| == |s|
  {
    if s == [] then []
    else
      var r := Sort(s[1..]);
      HeadAndTail(s); InsertIsPermutation(s[0], r); InsertIsSorted(s[0], r);
      SameLength(Insert(s[0], r), s);
      Insert(s[0], r)
  }

  lemma SameLength(a: seq<real>, b: seq<real>)
    requires multiset(a) == multiset(b)
    ensures |a| == |b|
  {
    assert |multiset(a)| == |a| && |multiset(b)| == |b|;
  }

  lemma SortedHeadIsLeast(s: seq<real>, x: real)
    requires Sorted(s) && x in multiset(s)
    ensures s != [] && s[0] <= x
  {
    var i :| 0 <= i < |s| && s[i] == x;
  }

  lemma SortedLastIsGreatest(s: seq<real>, x: real)
    requires Sorted(s) && x in multiset(s)
    ensures s != [] && x <= s[|s| - 1]
  {
    var i :| 0 <= i < |s| && s[i] == x;
  }

  lemma SortedParts(s: seq<real>, i: nat, j: nat)
    requires Sorted(s) && i <= j <= |s|
    ensures Sorted(s[i..j]) && Sorted(s[i..])
  {
  }

  lemma SameHead(a: seq<real>, b: seq<real>)
    requires Sorted(a) && Sorted(b) && multiset(a) == multiset(b) && a != []
    ensures b != [] && a[0] == b[0] && multiset(a[1..]) == multiset(b[1..])
  {
    SameLength(a, b);
    HeadAndTail(a);
    HeadAndTail(b);
    SortedHeadIsLeast(a, b[0]);
    SortedHeadIsLeast(b, a[0]);
  }

  /** There is only one way to sort: any two sorted lists of the same samples are equal. */
  lemma {:induction false} SortedIsUnique(a: seq<real>, b: seq<real>)
    requires Sorted(a) && Sorted(b) && multiset(a) == multiset(b)
    ensures a == b
  {
    SameLength(a, b);
    if a != [] {
      SameHead(a, b);
      SortedParts(a, 1, |a|);
      SortedParts(b, 1, |b|);
      SortedIsUnique(a[1..], b[1..]);
      assert a == [a[0]] + a[1..] && b == [b[0]] + b[1..];
    }
  }

  lemma SortIsCanonical(a: seq<real>, b: seq<real>)
    requires multiset(a) == multiset(b)
    ensures Sort(a) == Sort(b)
  {
    SortedIsUnique(Sort(a), Sort(b));
  }

  lemma {:induction false} InsertSum(x: real, s: seq<real>)
    ensures Sum(Insert(x, s)) == x + Sum(s)
  {
    HeadAndTailSum(Insert(x, s));
    if s == [] || x <= s[0] {
      assert Insert(x, s)[1..] == s;
    } else {
      HeadAndTailSum(s);
      InsertSum(x, s[1..]);
    }
  }

  lemma {:induction false} SortSum(s: seq<real>)
    ensures Sum(Sort(s)) == Sum(s)
  {
    if s != [] {
      HeadAndTailSum(s);
      SortSum(s[1..]);
      InsertSum(s[0], Sort(s[1..]));
    }
  }

  // ----- order statistics

  lemma SubsetIsShorter(t: seq<real>, s: seq<real>)
    requires multiset(t) <= multiset(s)
    ensures |t| <= |s|
  {
    assert multiset(s) == multiset(t) + (multiset(s) - multiset(t));
    assert |multiset(s)| == |s| && |multiset(t)| == |t|;
  }

  /** Taking the least of each side away keeps the inclusion. */
  lemma DropLeast(s: seq<real>, t: seq<real>)
    requires Sorted(s) && Sorted(t) && multiset(t) <= multiset(s) && t != []
    ensures s != [] && s[0] <= t[0] && multiset(t[1..]) <= multiset(s[1..])
  {
    HeadAndTail(t);
    SortedHeadIsLeast(s, t[0]);
    HeadAndTail(s);
    var least := t[0];
    if s[0] in multiset(t) {
      SortedHeadIsLeast(t, s[0]);
      assert least == s[0];
    }
    assert multiset(t) - multiset{least} <= multiset(s) - multiset{s[0]};
  }

  lemma DropGreatest(s: seq<real>, t: seq<real>)
    requires Sorted(s) && Sorted(t) && multiset(t) <= multiset(s) && t != []
    ensures s != [] && t[|t| - 1] <= s[|s| - 1]
    ensures multiset(t[..|t| - 1]) <= multiset(s[..|s| - 1])
  {
    var last := t[|t| - 1];
    InitAndLast(t);
    SortedLastIsGreatest(s, last);
    InitAndLast(s);
    var top := s[|s| - 1];
    if top in multiset(t) {
      SortedLastIsGreatest(t, top);
      assert last == top;
    }
    assert multiset(t) - multiset{last} <= multiset(s) - multiset{top};
  }

  /** The k first entries of a sorted list have the least sum of all choices of k samples. */
  lemma {:induction false} LowestSumIsLeast(s: seq<real>, t: seq<real>)
    requires Sorted(s) && Sorted(t) && multiset(t) <= multiset(s)
    ensures |t| <= |s| && Sum(s[..|t|]) <= Sum(t)
    decreases |t|
  {
    SubsetIsShorter(t, s);
    if t != [] {
      DropLeast(s, t);
      SortedParts(s, 1, |s|);
      SortedParts(t, 1, |t|);
      LowestSumIsLeast(s[1..], t[1..]);
      HeadAndTailSum(s[..|t|]);
      HeadAndTailSum(t);
      assert s[..|t|][1..] == s[1..][..|t| - 1];
    }
  }

  /** The k last entries of a sorted list have the greatest sum of all choices of k samples. */
  lemma {:induction false} HighestSumIsGreatest(s: seq<real>, t: seq<real>)
    requires Sorted(s) && Sorted(t) && multiset(t) <= multiset(s)
    ensures |t| <= |s| && Sum(t) <= Sum(s[|s| - |t|..])
    decreases |t|
  {
    SubsetIsShorter(t, s);
    if t != [] {
      var m, n := |t| - 1, |s| - 1;
      DropGreatest(s, t);
      SortedParts(s, 0, n);
      SortedParts(t, 0, m);
      HighestSumIsGreatest(s[..n], t[..m]);
      TopOfInit(s, m);
    }
  }

  lemma TopOfInit(s: seq<real>, m: nat)
    requires m < |s|
    ensures var top := s[|s| - m - 1..];
      top[..|top| - 1] == s[..|s| - 1][|s| - 1 - m..] && top[|top| - 1] == s[|s| - 1]
  {
  }

  /** Every sample lies between lo and hi, so the sum does, scaled by the count. */
  lemma {:induction false} SumBounds(s: seq<real>, lo: real, hi: real)
    requires forall i :: 0 <= i < |s| ==> lo <= s[i] <= hi
    ensures |s| as real * lo <= Sum(s) <= |s| as real * hi
  {
    if s != [] {
      SumBounds(s[..|s| - 1], lo, hi);
    }
  }
}
