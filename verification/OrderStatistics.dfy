/** Ranks, sorting and percentiles of integer samples. */
module OrderStatistics {
  import opened TimeWindows

  /** How many samples are at most `v`. */
  function CountAtMost(s: seq<int>, v: int): nat {
    if s == [] then 0
    else CountAtMost(s[..|s| - 1], v) + if s[|s| - 1] <= v then 1 else 0
  }

  /** Insert `x` into an ascending sequence. */
  function Insert(s: seq<int>, x: int): seq<int> {
    if s == [] || s[|s| - 1] <= x then s + [x]
    else Insert(s[..|s| - 1], x) + [s[|s| - 1]]
  }

  function Sort(s: seq<int>): seq<int> {
    if s == [] then [] else Insert(Sort(s[..|s| - 1]), s[|s| - 1])
  }

  /**
    * computePercentile, with the percentile in whole percent: for at most 1000 samples and the
    * percentiles 50, 90 and 99 the source's truncated double product equals this integer quotient.
    */
  function Percentile(data: seq<int>, percent: nat): int {
    if data == [] then 0
    else
      SortIsSorted(data);
      Sort(data)[Rank(|data|, percent)]
  }

  function Rank(n: nat, percent: nat): (r: nat)
    requires n > 0
    ensures r < n
  {
    var index := percent * n / 100;
    if index >= n then n - 1 else index
  }

  lemma {:induction false} CountConcat(a: seq<int>, b: seq<int>, v: int)
    ensures CountAtMost(a + b, v) == CountAtMost(a, v) + CountAtMost(b, v)
    decreases |b|
  {
    if b == [] {
      assert a + b == a;
    } else {
      assert (a + b)[..|a + b| - 1] == a + b[..|b| - 1];
      CountConcat(a, b[..|b| - 1], v);
    }
  }

  lemma {:induction false} CountBounded(s: seq<int>, v: int)
    ensures CountAtMost(s, v) <= |s|
  {
    if s != [] {
      CountBounded(s[..|s| - 1], v);
    }
  }

  lemma {:induction false} InsertIsSorted(s: seq<int>, x: int)
    requires NonDecreasing(s)
    ensures |Insert(s, x)| == |s| + 1
    ensures NonDecreasing(Insert(s, x))
    ensures AllAtMost(Insert(s, x), if s == [] || s[|s| - 1] <= x then x else s[|s| - 1])
  {
    if s != [] && s[|s| - 1] > x {
      InsertIsSorted(s[..|s| - 1], x);
    }
  }

  lemma {:induction false} InsertAdds(s: seq<int>, x: int)
    ensures multiset(Insert(s, x)) == multiset(s) + multiset{x}
  {
    if s != [] && s[|s| - 1] > x {
      InsertAdds(s[..|s| - 1], x);
      assert s == s[..|s| - 1] + [s[|s| - 1]];
    }
  }

  lemma {:induction false} InsertCounts(s: seq<int>, x: int, v: int)
    ensures CountAtMost(Insert(s, x), v) == CountAtMost(s, v) + CountAtMost([x], v)
  {
    if s == [] || s[|s| - 1] <= x {
      CountConcat(s, [x], v);
    } else {
      InsertCounts(s[..|s| - 1], x, v);
      CountConcat(Insert(s[..|s| - 1], x), [s[|s| - 1]], v);
    }
  }

  lemma {:induction false} SortIsSorted(s: seq<int>)
    ensures |Sort(s)| == |s| && NonDecreasing(Sort(s))
    ensures multiset(Sort(s)) == multiset(s)
  {
    if s != [] {
      SortIsSorted(s[..|s| - 1]);
      InsertIsSorted(Sort(s[..|s| - 1]), s[|s| - 1]);
      InsertAdds(Sort(s[..|s| - 1]), s[|s| - 1]);
      assert s == s[..|s| - 1] + [s[|s| - 1]];
    }
  }

  lemma {:induction false} SortCounts(s: seq<int>, v: int)
    ensures CountAtMost(Sort(s), v) == CountAtMost(s, v)
  {
    if s != [] {
      SortCounts(s[..|s| - 1], v);
      InsertCounts(Sort(s[..|s| - 1]), s[|s| - 1], v);
    }
  }

  /** In an ascending sequence, position and rank agree. */
  lemma {:induction false} SortedRank(t: seq<int>, i: nat, v: int)
    requires NonDecreasing(t) && i < |t|
    ensures t[i] <= v <==> i < CountAtMost(t, v)
  {
    var front := t[..|t| - 1];
    CountBounded(front, v);
    if i < |front| {
      SortedRank(front, i, v);
    } else if front != [] {
      SortedRank(front, |front| - 1, v);
    }
  }

  /** The i-th smallest sample, counting from 0, without reference to any sorting. */
  ghost predicate IsOrderStatistic(s: seq<int>, i: nat, v: int) {
    v in s && CountAtMost(s, v - 1) <= i < CountAtMost(s, v)
  }

  /** Position i of the sorted samples is the sample of rank i. */
  lemma SortedRankOf(s: seq<int>, i: nat, v: int)
    requires i < |s|
    ensures |Sort(s)| == |s|
    ensures Sort(s)[i] <= v <==> i < CountAtMost(s, v)
  {
    SortIsSorted(s);
    SortCounts(s, v);
    SortedRank(Sort(s), i, v);
  }

  lemma SortGivesOrderStatistic(s: seq<int>, i: nat, v: int)
    requires i < |s|
    ensures |Sort(s)| == |s|
    ensures IsOrderStatistic(s, i, v) <==> v == Sort(s)[i]
  {
    SortedRankOf(s, i, v);
    SortedRankOf(s, i, v - 1);
    SortIsSorted(s);
    assert Sort(s)[i] in multiset(s);
  }

  lemma RankBetween(below: nat, percent: nat, n: nat, notAbove: nat)
    requires n > 0 && percent < 100
    ensures below <= Rank(n, percent) < notAbove <==> 100 * below <= percent * n < 100 * notAbove
  {
    var q := percent * n / 100;
    assert 100 * q <= percent * n < 100 * q + 100;
    assert percent * n < 100 * n;
  }

  /**
    * The percentile by counting alone: the sample with at most that share of all samples below it and more
    * than that share not above it.
    */
  lemma PercentileByCounting(data: seq<int>, percent: nat, v: int)
    requires data != [] && percent < 100
    ensures v == Percentile(data, percent) <==>
              v in data && 100 * CountAtMost(data, v - 1) <= percent * |data| < 100 * CountAtMost(data, v)
  {
    SortGivesOrderStatistic(data, Rank(|data|, percent), v);
    RankBetween(CountAtMost(data, v - 1), percent, |data|, CountAtMost(data, v));
  }

  /** From 100 percent on it is the largest sample. */
  lemma PercentileClamps(data: seq<int>, percent: nat)
    requires data != [] && percent >= 100
    ensures Percentile(data, percent) in data && forall v :: v in data ==> v <= Percentile(data, percent)
  {
    LastRank(|data|, percent);
    SortIsSorted(data);
    assert Sort(data)[|data| - 1] in multiset(data);
    forall v | v in data ensures v <= Sort(data)[|data| - 1] {
      LargestIsLast(data, v);
    }
  }

  lemma LastRank(n: nat, percent: nat)
    requires n > 0 && percent >= 100
    ensures Rank(n, percent) == n - 1
  {
    assert percent * n >= 100 * n;
  }

  lemma LargestIsLast(data: seq<int>, v: int)
    requires v in data
    ensures |Sort(data)| == |data| && v <= Sort(data)[|data| - 1]
  {
    SortIsSorted(data);
    assert v in multiset(Sort(data));
  }

  /** Whatever sorting algorithm is used, an ascending rearrangement is this one. */
  lemma SortIsUnique(s: seq<int>, t: seq<int>)
    requires NonDecreasing(t) && multiset(t) == multiset(s)
    ensures t == Sort(s)
  {
    SortIsSorted(s);
    assert |t| == |multiset(t)| && |s| == |multiset(s)|;
    forall i | 0 <= i < |t| ensures t[i] == Sort(s)[i] {
      SameRank(t, s, i, t[i]);
      SameRank(t, s, i, Sort(s)[i]);
    }
  }

  lemma SameRank(t: seq<int>, s: seq<int>, i: nat, v: int)
    requires NonDecreasing(t) && multiset(t) == multiset(s) && i < |t| == |s|
    ensures |Sort(s)| == |s|
    ensures t[i] <= v <==> Sort(s)[i] <= v
  {
    CountOfPermutation(t, s, v);
    SortedRank(t, i, v);
    SortedRankOf(s, i, v);
  }

  lemma RemoveOne(b: seq<int>, j: nat, v: int)
    requires j < |b|
    ensures multiset(b[..j] + b[j + 1..]) == multiset(b) - multiset{b[j]}
    ensures CountAtMost(b, v) == CountAtMost(b[..j] + b[j + 1..], v) + CountAtMost([b[j]], v)
  {
    assert b == b[..j] + ([b[j]] + b[j + 1..]);
    CountConcat(b[..j], [b[j]] + b[j + 1..], v);
    CountConcat([b[j]], b[j + 1..], v);
    CountConcat(b[..j], b[j + 1..], v);
  }

  lemma {:induction false} CountOfPermutation(a: seq<int>, b: seq<int>, v: int)
    requires multiset(a) == multiset(b)
    ensures CountAtMost(a, v) == CountAtMost(b, v)
    decreases |a|
  {
    assert |b| == |multiset(b)| == |multiset(a)| == |a|;
    if a != [] {
      var last := |a| - 1;
      assert a[last] in multiset(b);
      var j :| 0 <= j < |b| && b[j] == a[last];
      RemoveOne(a, last, v);
      RemoveOne(b, j, v);
      CountOfPermutation(a[..last] + a[last + 1..], b[..j] + b[j + 1..], v);
    }
  }

  /** The reported percentile depends on which samples are in the window, not on their order. */
  lemma PercentileIgnoresOrder(a: seq<int>, b: seq<int>, percent: nat)
    requires multiset(a) == multiset(b)
    ensures Percentile(a, percent) == Percentile(b, percent)
  {
    assert |a| == |multiset(a)| && |b| == |multiset(b)|;
    SortIsSorted(a);
    SortIsUnique(b, Sort(a));
  }

  /**
    * Replacing the `k` oldest samples by `k` new ones moves every order statistic by at most `k` ranks.
    */
  lemma SlideMovesFewRanks(window: seq<int>, arrived: seq<int>, i: nat)
    requires |arrived| <= |window| && i < |window|
    ensures var k, slid := |arrived|, window[|arrived|..] + arrived;
            && |Sort(slid)| == |Sort(window)| == |window|
            && (k <= i ==> Sort(window)[i - k] <= Sort(slid)[i])
            && (i + k < |window| ==> Sort(slid)[i] <= Sort(window)[i + k])
  {
    var k, slid := |arrived|, window[|arrived|..] + arrived;
    SortedRankOf(window, i, 0);
    SortedRankOf(slid, i, 0);
    if k <= i {
      var v := Sort(slid)[i];
      SlideCount(window, arrived, v);
      SortedRankOf(slid, i, v);
      SortedRankOf(window, i - k, v);
    }
    if i + k < |window| {
      var v := Sort(window)[i + k];
      SlideCount(window, arrived, v);
      SortedRankOf(window, i + k, v);
      SortedRankOf(slid, i, v);
    }
  }

  lemma SlideCount(window: seq<int>, arrived: seq<int>, v: int)
    requires |arrived| <= |window|
    ensures var before, after := CountAtMost(window, v), CountAtMost(window[|arrived|..] + arrived, v);
            before - |arrived| <= after <= before + |arrived|
  {
    assert window == window[..|arrived|] + window[|arrived|..];
    CountConcat(window[..|arrived|], window[|arrived|..], v);
    CountConcat(window[|arrived|..], arrived, v);
    CountBounded(window[..|arrived|], v);
    CountBounded(arrived, v);
  }

  lemma PercentileWithin(data: seq<int>, percent: nat, lo: int, hi: int)
    requires data != [] && forall i :: 0 <= i < |data| ==> lo <= data[i] <= hi
    ensures lo <= Percentile(data, percent) <= hi
  {
    SortIsSorted(data);
    assert Sort(data)[Rank(|data|, percent)] in multiset(data);
  }

  lemma PercentileMonotone(data: seq<int>, p: nat, q: nat)
    requires p <= q
    ensures Percentile(data, p) <= Percentile(data, q)
  {
    if data != [] {
      RankMonotone(p, q, |data|);
      SortIsSorted(data);
    }
  }

  lemma RankMonotone(p: nat, q: nat, n: nat)
    requires p <= q && n > 0
    ensures Rank(n, p) <= Rank(n, q)
  {
    assert p * n <= q * n;
  }
}
