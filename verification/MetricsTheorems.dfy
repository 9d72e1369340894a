/** What the statistics say about the history of checks they summarise. */
module MetricsTheorems {
  import opened OrderStatistics
  import opened Metrics

  // ---- Counters ----

  lemma {:induction false} FailureKinds(h: seq<Event>)
    ensures Count(h, AnyFailure) == Count(h, FailedWith(DnsError)) + Count(h, FailedWith(ConnectionError))
              + Count(h, FailedWith(Timeout)) + Count(h, FailedWith(ReceiveError)) + Count(h, Unclassified)
    ensures Count(h, AnyServed) + Count(h, AnyFailure) == |h|
  {
    if h != [] {
      FailureKinds(h[..|h| - 1]);
      match h[|h| - 1]
      case Served(_, _, _) =>
      case Generic =>
      case Failed(result) =>
        match result {
          case SuccessResult =>
          case DnsError =>
          case ConnectionError =>
          case Timeout =>
          case ReceiveError =>
          case UnknownError =>
        }
    }
  }

  lemma {:induction false} StatusKinds(h: seq<Event>)
    ensures Count(h, AnyServed) == Count(h, StatusIn(200, 300)) + Count(h, StatusIn(300, 400))
              + Count(h, StatusIn(400, 500)) + Count(h, StatusFrom(500)) + Count(h, StatusBelow(200))
    ensures Count(h, AnyServed) == |Latencies(h)|
  {
    if h != [] {
      StatusKinds(h[..|h| - 1]);
    }
  }

  lemma CountersAddUp(h: seq<Event>)
    ensures var s := StatsOf(h);
      && s.successCount + s.failureCount == |h|
      && s.failureCount == s.dnsFailures + s.connectionErrors + s.timeouts + s.receiveErrors + Count(h, Unclassified)
      && s.successCount == s.http2xx + s.http3xx + s.http4xx + s.http5xx + Count(h, StatusBelow(200))
      && s.successCount == |Latencies(h)|
  {
    FailureKinds(h);
    StatusKinds(h);
  }

  /** The window is the last min(1000, successes) latencies. */
  lemma {:induction false} WindowIsRecentLatencies(h: seq<Event>)
    ensures var w := StatsOf(h).latencies;
      && |w| == (if StatsOf(h).successCount <= 1000 then StatsOf(h).successCount else 1000)
      && w == Latencies(h)[|Latencies(h)| - |w|..]
  {
    CountersAddUp(h);
  }

  /** `consecutive_failures` counts exactly the failures since the last success. */
  lemma TrailingFailuresIsRun(h: seq<Event>)
    ensures var n := StatsOf(h).consecutiveFailures;
      && n <= |h|
      && (forall i :: |h| - n <= i < |h| ==> !h[i].Served?)
      && (n < |h| ==> h[|h| - n - 1].Served?)
  {
    RunOfFailures(h);
  }

  lemma {:induction false} RunOfFailures(h: seq<Event>)
    ensures var n := TrailingFailures(h);
      && n <= |h|
      && (forall i :: |h| - n <= i < |h| ==> !h[i].Served?)
      && (n < |h| ==> h[|h| - n - 1].Served?)
  {
    if h != [] && !h[|h| - 1].Served? {
      RunOfFailures(h[..|h| - 1]);
    }
  }

  // ---- Exported numbers ----

  lemma {:induction false} Extremes(l: seq<int>)
    requires forall i :: 0 <= i < |l| ==> l[i] <= LONG_MAX
    ensures forall i :: 0 <= i < |l| ==> MinOf(l) <= l[i] <= MaxOf(l)
    ensures l == [] ==> MinOf(l) == LONG_MAX
    ensures l != [] ==> MinOf(l) in l
    ensures MaxOf(l) == 0 || MaxOf(l) in l
    ensures 0 <= MaxOf(l) && MinOf(l) <= LONG_MAX
  {
    if l != [] {
      Extremes(l[..|l| - 1]);
    }
  }

  lemma {:induction false} SumBounds(l: seq<int>, lo: int, hi: int)
    requires forall i :: 0 <= i < |l| ==> lo <= l[i] <= hi
    ensures lo * |l| <= Sum(l) <= hi * |l|
  {
    if l != [] {
      SumBounds(l[..|l| - 1], lo, hi);
      assert lo * |l| == lo * (|l| - 1) + lo && hi * |l| == hi * (|l| - 1) + hi;
    }
  }

  lemma QuotientAtMost(a: nat, n: nat, hi: int)
    requires n > 0 && a <= hi * n
    ensures a / n <= hi
  {
    var q := a / n;
    assert q * n <= a;
    assert q >= hi + 1 ==> q * n >= (hi + 1) * n;
  }

  lemma QuotientAtLeast(a: nat, n: nat, lo: int)
    requires n > 0 && lo * n <= a
    ensures lo <= a / n
  {
    var q := a / n;
    assert a < (q + 1) * n;
    assert q + 1 <= lo ==> (q + 1) * n <= lo * n;
  }

  lemma QuotientBounds(total: int, n: nat, lo: int, hi: int)
    requires n > 0 && lo * n <= total <= hi * n && 0 <= hi
    ensures lo <= TruncatedQuotient(total, n) <= hi
  {
    if total >= 0 {
      QuotientAtMost(total, n, hi);
      QuotientAtLeast(total, n, lo);
    } else {
      assert -total <= (-lo) * n;
      QuotientAtMost(-total, n, -lo);
    }
  }

  lemma {:induction false} LatenciesAreLongs(h: seq<Event>)
    ensures forall i :: 0 <= i < |Latencies(h)| ==> Latencies(h)[i] <= LONG_MAX
  {
    if h != [] {
      LatenciesAreLongs(h[..|h| - 1]);
    }
  }

  /** Every sample of the window lies between the extremes of the whole history. */
  lemma WindowWithin(l: seq<int>, i: nat)
    requires (forall j :: 0 <= j < |l| ==> l[j] <= LONG_MAX) && i < |LastOf(l, WINDOW)|
    ensures MinOf(l) <= LastOf(l, WINDOW)[i] <= MaxOf(l)
  {
    Extremes(l);
    var w := LastOf(l, WINDOW);
    assert w[i] == l[|l| - |w| + i];
  }

  lemma PercentileInWindow(l: seq<int>, percent: nat)
    requires l != [] && forall j :: 0 <= j < |l| ==> l[j] <= LONG_MAX
    ensures MinOf(l) <= Percentile(LastOf(l, WINDOW), percent) <= MaxOf(l)
  {
    var w := LastOf(l, WINDOW);
    forall i | 0 <= i < |w| ensures MinOf(l) <= w[i] <= MaxOf(l) {
      WindowWithin(l, i);
    }
    PercentileWithin(w, percent, MinOf(l), MaxOf(l));
  }

  lemma WindowPercentiles(l: seq<int>)
    requires forall i :: 0 <= i < |l| ==> l[i] <= LONG_MAX
    ensures var w := LastOf(l, WINDOW);
      && Percentile(w, 50) <= Percentile(w, 90) <= Percentile(w, 99) <= MaxOf(l)
      && (l == [] ==> Percentile(w, 50) == 0)
      && (l != [] ==> MinOf(l) <= Percentile(w, 50))
  {
    PercentileMonotone(LastOf(l, WINDOW), 50, 90);
    PercentileMonotone(LastOf(l, WINDOW), 90, 99);
    if l != [] {
      PercentileInWindow(l, 50);
      PercentileInWindow(l, 99);
    }
  }

  lemma AverageWithin(l: seq<int>)
    requires l != [] && forall i :: 0 <= i < |l| ==> l[i] <= LONG_MAX
    ensures MinOf(l) <= TruncatedQuotient(Sum(l), |l|) <= MaxOf(l)
  {
    Extremes(l);
    SumBounds(l, MinOf(l), MaxOf(l));
    QuotientBounds(Sum(l), |l|, MinOf(l), MaxOf(l));
  }

  /**
    * The exported numbers are ordered in every reachable state, although min, max and avg range over
    * the whole history and the percentiles only over the window.
    */
  lemma ExportIsOrdered(h: seq<Event>)
    ensures var e := ExportOf(StatsOf(h));
      e.min <= e.p50 <= e.p90 <= e.p99 <= e.max && e.min <= e.avg <= e.max
  {
    var l := Latencies(h);
    LatenciesAreLongs(h);
    StatusKinds(h);
    WindowPercentiles(l);
    if l != [] {
      AverageWithin(l);
    }
  }

  /** Of the exported counters, each check shows up exactly once: by outcome, and by class if it has one. */
  lemma ExportAddsUp(h: seq<Event>)
    ensures var e := ExportOf(StatsOf(h));
      && e.success + e.failure == |h|
      && e.failure == e.dnsFailures + e.connectionErrors + e.timeouts + e.receiveErrors + Count(h, Unclassified)
      && e.success == e.http2xx + e.http3xx + e.http4xx + e.http5xx + Count(h, StatusBelow(200))
  {
    CountersAddUp(h);
  }

  /**
    * Stability: on a full window, `k` further successes move each reported percentile by at most `k`
    * ranks; one success moves it by at most one.
    */
  lemma PercentilesAreStable(h: seq<Event>, later: seq<Event>, percent: nat)
    requires StatsOf(h).successCount >= WINDOW && percent < 100
    requires |later| <= WINDOW && forall i :: 0 <= i < |later| ==> later[i].Served?
    ensures var before, after := Sort(StatsOf(h).latencies), StatsOf(h + later).latencies;
            var i, k := Rank(WINDOW, percent), |later|;
      && |before| == |after| == WINDOW && i == 10 * percent
      && (k <= i ==> before[i - k] <= Percentile(after, percent))
      && (i + k < WINDOW ==> Percentile(after, percent) <= before[i + k])
  {
    var w, arrived := StatsOf(h).latencies, Latencies(later);
    StatusKinds(h);
    LatenciesConcat(h, later);
    WindowSlides(Latencies(h), arrived);
    SlideMovesFewRanks(w, arrived, Rank(WINDOW, percent));
  }

  lemma WindowSlides(l: seq<int>, arrived: seq<int>)
    requires |arrived| <= WINDOW <= |l|
    ensures LastOf(l + arrived, WINDOW) == LastOf(l, WINDOW)[|arrived|..] + arrived
  {
  }

  lemma {:induction false} LatenciesConcat(h: seq<Event>, later: seq<Event>)
    requires forall i :: 0 <= i < |later| ==> later[i].Served?
    ensures Latencies(h + later) == Latencies(h) + Latencies(later)
    ensures |Latencies(later)| == |later|
    decreases |later|
  {
    if later == [] {
      assert h + later == h;
    } else {
      var front := later[..|later| - 1];
      LatenciesConcat(h, front);
      assert (h + later)[..|h + later| - 1] == h + front;
    }
  }

  /** The percentile is the sample of its rank, whatever order the window is in and however it is sorted. */
  lemma PercentileIsOrderStatistic(data: seq<int>, percent: nat, v: int)
    requires data != []
    ensures Percentile(data, percent) == v <==> IsOrderStatistic(data, Rank(|data|, percent), v)
  {
    SortGivesOrderStatistic(data, Rank(|data|, percent), v);
  }

  // ---- Health ----

  function P90(h: seq<Event>): int {
    Percentile(StatsOf(h).latencies, 90)
  }

  /** What the health has to be, by the last health, whether three checks in a row failed, p90 and failures. */
  function Verdict(before: int, threeFailed: bool, p90: int, failures: nat, checks: nat): int {
    if threeFailed then 0
    else if before == 2 then if p90 < 900 then 1 else 2
    else if p90 > 1200 then 2
    else if 10 * failures > 3 * checks then 3
    else 1
  }

  /** The last three checks failed. */
  predicate ThreeFailed(h: seq<Event>) {
    |h| >= 3 && !h[|h| - 1].Served? && !h[|h| - 2].Served? && !h[|h| - 3].Served?
  }

  lemma RuleIsVerdict(h: seq<Event>, before: int)
    ensures ComputeHealth(Summary(h, before)) == Verdict(before, ThreeFailed(h), P90(h), Count(h, AnyFailure), |h|)
  {
    FailureKinds(h);
    ThreeTrailing(h);
    assert Summary(h, before).latencies == StatsOf(h).latencies;
  }

  /**
    * The health rule over histories, for the stored health and for the one `getHealth` reports. The codes are
    * 0 for DOWN, 1 for HEALTHY, 2 for SLOW and 3 for DEGRADED; a site without checks is reported healthy.
    */
  lemma HealthTable(h: seq<Event>)
    ensures h == [] ==> HealthAfter(h) == 1 && LastHealth(h) == -1
    ensures h != [] ==>
      && LastHealth(h) == Verdict(LastHealth(h[..|h| - 1]), ThreeFailed(h), P90(h), Count(h, AnyFailure), |h|)
      && HealthAfter(h) == Verdict(LastHealth(h), ThreeFailed(h), P90(h), Count(h, AnyFailure), |h|)
  {
    if h != [] {
      RuleIsVerdict(h, LastHealth(h[..|h| - 1]));
      RuleIsVerdict(h, LastHealth(h));
    }
  }

  /**
    * `getHealth` and `exportMetrics` evaluate the rule again on the stored record. They agree with the
    * stored health except when the last update left SLOW while more than 30% of all checks had failed:
    * then HEALTHY is stored and DEGRADED is reported.
    */
  lemma ReevaluationDiffersExactlyWhen(h: seq<Event>)
    requires h != []
    ensures var before := LastHealth(h[..|h| - 1]);
      && (HealthAfter(h) != LastHealth(h) <==>
            before == SLOW && TrailingFailures(h) < 3 && P90(h) < 900 && 10 * Count(h, AnyFailure) > 3 * |h|)
      && (HealthAfter(h) != LastHealth(h) ==> LastHealth(h) == HEALTHY && HealthAfter(h) == DEGRADED)
  {
    HealthTable(h);
  }

  /** Evaluating twice always reaches a fixed point. */
  lemma {:induction false} TwoEvaluationsSettle(s: SiteStats)
    ensures var once := s.(lastHealth := ComputeHealth(s));
            var twice := once.(lastHealth := ComputeHealth(once));
            ComputeHealth(twice) == twice.lastHealth
  {
    var once := s.(lastHealth := ComputeHealth(s));
    var twice := once.(lastHealth := ComputeHealth(once));
    assert once.latencies == twice.latencies == s.latencies;
  }

  /** Without three failures in a row, a site turns SLOW above 1200 ms and stays SLOW down to 900 ms. */
  lemma SlowAfterUpdate(h: seq<Event>)
    requires h != [] && TrailingFailures(h) < 3
    ensures LastHealth(h) == SLOW <==>
              if LastHealth(h[..|h| - 1]) == SLOW then P90(h) >= 900 else P90(h) > 1200
  {
    var s := Summary(h, LastHealth(h[..|h| - 1]));
    assert s.latencies == StatsOf(h).latencies;
  }

  /**
    * Hysteresis over a run: while no three failures in a row occur and the 90th percentile stays
    * between 900 and 1200, a site neither becomes SLOW nor stops being SLOW.
    */
  lemma {:induction false} SlowIsSticky(h: seq<Event>, n: nat)
    requires n <= |h|
    requires forall m :: n < m <= |h| ==> 900 <= P90(h[..m]) <= 1200 && TrailingFailures(h[..m]) < 3
    ensures LastHealth(h) == SLOW <==> LastHealth(h[..n]) == SLOW
  {
    assert h[..|h|] == h;
    if n < |h| {
      var front := h[..|h| - 1];
      forall m | n < m <= |front| ensures 900 <= P90(front[..m]) <= 1200 && TrailingFailures(front[..m]) < 3 {
        assert front[..m] == h[..m];
      }
      SlowIsSticky(front, n);
      assert front[..n] == h[..n];
      SlowAfterUpdate(h);
    }
  }

  lemma ThreeTrailing(h: seq<Event>)
    ensures TrailingFailures(h) >= 3 <==>
            |h| >= 3 && !h[|h| - 1].Served? && !h[|h| - 2].Served? && !h[|h| - 3].Served?
  {
    if |h| >= 3 {
      var a, b := h[..|h| - 1], h[..|h| - 2];
      assert a[..|a| - 1] == b;
      assert TrailingFailures(h) == if h[|h| - 1].Served? then 0 else 1 + TrailingFailures(a);
      assert TrailingFailures(a) == if h[|h| - 2].Served? then 0 else 1 + TrailingFailures(b);
      assert TrailingFailures(b) == if h[|h| - 3].Served? then 0 else 1 + TrailingFailures(b[..|b| - 1]);
    } else {
      TrailingFailuresIsRun(h);
    }
  }

  /** A site is DOWN after an update exactly when its last three checks failed. */
  lemma DownExactlyAfterThreeFailures(h: seq<Event>)
    ensures LastHealth(h) == DOWN <==>
            |h| >= 3 && !h[|h| - 1].Served? && !h[|h| - 2].Served? && !h[|h| - 3].Served?
  {
    ThreeTrailing(h);
  }
}
