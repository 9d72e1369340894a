/** What the exported numbers say about the checks of a site, number by number. */
module ExportTheorems {
  import opened OrderStatistics
  import opened Metrics
  import opened MetricsTheorems

  function If(b: bool): nat {
    if b then 1 else 0
  }

  /** A site without checks exports nothing but zeros. */
  lemma NothingYet()
    ensures var e := ExportOf(StatsOf([]));
      && e.success == e.failure == 0
      && e.dnsFailures == e.connectionErrors == e.timeouts == e.receiveErrors == 0
      && e.avg == e.p50 == e.p90 == e.p99 == e.min == e.max == 0
      && e.bytes == 0 && e.http2xx == e.http3xx == e.http4xx == e.http5xx == 0
  {
  }

  /** What one more successful check changes in the counters. */
  lemma OneMoreSuccess(h: seq<Event>, latency: Long, bytes: nat, status: int)
    ensures var x, y := ExportOf(StatsOf(h)), ExportOf(StatsOf(h + [Served(latency, bytes, status)]));
      && y.success == x.success + 1 && y.failure == x.failure && y.bytes == x.bytes + bytes
      && y.http2xx == x.http2xx + If(200 <= status <= 299)
      && y.http3xx == x.http3xx + If(300 <= status <= 399)
      && y.http4xx == x.http4xx + If(400 <= status <= 499)
      && y.http5xx == x.http5xx + If(status >= 500)
      && y.dnsFailures == x.dnsFailures && y.connectionErrors == x.connectionErrors
      && y.timeouts == x.timeouts && y.receiveErrors == x.receiveErrors
    ensures Latencies(h + [Served(latency, bytes, status)]) == Latencies(h) + [latency as int]
  {
    SnocParts(h, Served(latency, bytes, status));
    ServedSummary(h, Served(latency, bytes, status), LastHealth(h));
  }

  /** What one more failed check changes. */
  lemma OneMoreFailure(h: seq<Event>, e: Event)
    requires !e.Served?
    ensures var x, y := ExportOf(StatsOf(h)), ExportOf(StatsOf(h + [e]));
      && y.success == x.success && y.failure == x.failure + 1 && y.bytes == x.bytes
      && y.dnsFailures == x.dnsFailures + If(e == Failed(DnsError))
      && y.connectionErrors == x.connectionErrors + If(e == Failed(ConnectionError))
      && y.timeouts == x.timeouts + If(e == Failed(Timeout))
      && y.receiveErrors == x.receiveErrors + If(e == Failed(ReceiveError))
      && y.http2xx == x.http2xx && y.http3xx == x.http3xx && y.http4xx == x.http4xx && y.http5xx == x.http5xx
    ensures Latencies(h + [e]) == Latencies(h)
  {
    SnocParts(h, e);
    FailureSummary(h, e, LastHealth(h));
  }

  /** `v` is the given percentile of a non-empty window, by counting. */
  predicate IsShare(w: seq<int>, percent: nat, v: int) {
    v in w && 100 * CountAtMost(w, v - 1) <= percent * |w| < 100 * CountAtMost(w, v)
  }

  /** The three quantiles, of the last 1000 latencies or of all if there are fewer. */
  lemma QuantilesCount(h: seq<Event>)
    requires Latencies(h) != []
    ensures var e, l := ExportOf(StatsOf(h)), Latencies(h);
            var w := if |l| <= 1000 then l else l[|l| - 1000..];
            w == StatsOf(h).latencies && IsShare(w, 50, e.p50) && IsShare(w, 90, e.p90) && IsShare(w, 99, e.p99)
  {
    ShareOf(StatsOf(h).latencies, 50);
    ShareOf(StatsOf(h).latencies, 90);
    ShareOf(StatsOf(h).latencies, 99);
  }

  lemma ShareOf(w: seq<int>, percent: nat)
    requires w != [] && percent < 100
    ensures IsShare(w, percent, Percentile(w, percent))
  {
    PercentileByCounting(w, percent, Percentile(w, percent));
  }

  /**
    * The largest latency, or 0 if none is positive; the smallest, or 0 if all have the largest value the type
    * has; and the total divided by the number of successes, truncated toward zero.
    */
  lemma ExtremesAndAverage(h: seq<Event>)
    requires Latencies(h) != []
    ensures var e, l := ExportOf(StatsOf(h)), Latencies(h);
      && (forall i :: 0 <= i < |l| ==> e.min <= l[i] <= e.max)
      && (e.max in l || e.max == 0)
      && (e.min in l || (e.min == 0 && forall i :: 0 <= i < |l| ==> l[i] == 0x7FFF_FFFF_FFFF_FFFF))
    ensures var e, total := ExportOf(StatsOf(h)), Sum(Latencies(h));
      && (0 <= total ==> e.success * e.avg <= total < e.success * e.avg + e.success)
      && (total <= 0 ==> e.success * e.avg - e.success < total <= e.success * e.avg)
  {
    LatenciesAreLongs(h);
    Extremes(Latencies(h));
    StatusKinds(h);
  }

  /** The exported health is the one `getHealth` reports. */
  lemma HealthIsReported(h: seq<Event>)
    requires h != []
    ensures ExportOf(StatsOf(h)).health == HealthAfter(h)
  {
  }
}
