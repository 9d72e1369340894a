/** src/metrics/Metrics.cpp: per-site statistics, the health rule, and the numbers `exportMetrics` prints. */
module Metrics {
  import opened OrderStatistics

  const LONG_MAX: int := 0x7FFF_FFFF_FFFF_FFFF
  type Long = x: int | -LONG_MAX - 1 <= x <= LONG_MAX

  const WINDOW: nat := 1000

  const UNKNOWN: int := -1
  const DOWN: int := 0
  const HEALTHY: int := 1
  const SLOW: int := 2
  const DEGRADED: int := 3

  datatype Host = Host(name: string)

  datatype CheckResult = SuccessResult | DnsError | ConnectionError | Timeout | ReceiveError | UnknownError

  /** One recorded check. `Generic` is recordFailure, `Failed` is recordFailureType. */
  datatype Event =
    | Served(latency: Long, bytes: nat, status: int)
    | Failed(result: CheckResult)
    | Generic

  // ---- The history a site's statistics stand for ----

  function Latencies(h: seq<Event>): seq<int> {
    if h == [] then []
    else
      var front := Latencies(h[..|h| - 1]);
      var e := h[|h| - 1];
      if e.Served? then front + [e.latency as int] else front
  }

  /** The last `n` elements, or all if there are fewer. */
  function LastOf(s: seq<int>, n: nat): seq<int> {
    if |s| <= n then s else s[|s| - n..]
  }

  function Sum(s: seq<int>): int {
    if s == [] then 0 else Sum(s[..|s| - 1]) + s[|s| - 1]
  }

  function MinOf(s: seq<int>): int {
    if s == [] then LONG_MAX
    else
      var front, last := MinOf(s[..|s| - 1]), s[|s| - 1];
      if last < front then last else front
  }

  function MaxOf(s: seq<int>): int {
    if s == [] then 0
    else
      var front, last := MaxOf(s[..|s| - 1]), s[|s| - 1];
      if last > front then last else front
  }

  datatype Kind =
    | AnyServed
    | AnyFailure
    | StatusIn(lo: int, hi: int)
    | StatusFrom(lo: int)
    | StatusBelow(hi: int)
    | FailedWith(result: CheckResult)
    | Unclassified

  predicate Is(e: Event, kind: Kind) {
    match kind
    case AnyServed => e.Served?
    case AnyFailure => !e.Served?
    case StatusIn(lo, hi) => e.Served? && lo <= e.status < hi
    case StatusFrom(lo) => e.Served? && lo <= e.status
    case StatusBelow(hi) => e.Served? && e.status < hi
    case FailedWith(r) => e == Failed(r)
    case Unclassified => e == Generic || e == Failed(SuccessResult) || e == Failed(UnknownError)
  }

  function Count(h: seq<Event>, kind: Kind): nat {
    if h == [] then 0
    else Count(h[..|h| - 1], kind) + if Is(h[|h| - 1], kind) then 1 else 0
  }

  function Bytes(h: seq<Event>): nat {
    if h == [] then 0
    else Bytes(h[..|h| - 1]) + if h[|h| - 1].Served? then h[|h| - 1].bytes else 0
  }

  /** Length of the run of failures the history ends with. */
  function TrailingFailures(h: seq<Event>): nat {
    if h == [] || h[|h| - 1].Served? then 0 else 1 + TrailingFailures(h[..|h| - 1])
  }

  // ---- Statistics ----

  datatype SiteStats = SiteStats(
    totalLatency: int,
    successCount: nat,
    failureCount: nat,
    consecutiveFailures: nat,
    lastHealth: int,
    http2xx: nat, http3xx: nat, http4xx: nat, http5xx: nat,
    minLatency: int,
    maxLatency: int,
    totalBytes: nat,
    dnsFailures: nat, connectionErrors: nat, timeouts: nat, receiveErrors: nat,
    latencies: seq<int>)

  const FRESH: SiteStats :=
    SiteStats(0, 0, 0, 0, UNKNOWN, 0, 0, 0, 0, LONG_MAX, 0, 0, 0, 0, 0, 0, [])

  predicate FailureRateAbove30Percent(s: SiteStats) {
    10 * s.failureCount > 3 * (s.successCount + s.failureCount)
  }

  /** computeHealth; the failure rate is compared exactly, so 0 checks give rate 0. */
  function ComputeHealth(s: SiteStats): int {
    var p90 := Percentile(s.latencies, 90);
    if s.consecutiveFailures >= 3 then DOWN
    else if s.lastHealth == SLOW then
      if p90 < 900 then HEALTHY else SLOW
    else if p90 > 1200 then SLOW
    else if FailureRateAbove30Percent(s) then DEGRADED
    else HEALTHY
  }

  /** What the statistics have to be after the history `h`, apart from the last health. */
  function Summary(h: seq<Event>, lastHealth: int): SiteStats {
    var l := Latencies(h);
    SiteStats(
      Sum(l), Count(h, AnyServed), Count(h, AnyFailure), TrailingFailures(h), lastHealth,
      Count(h, StatusIn(200, 300)), Count(h, StatusIn(300, 400)),
      Count(h, StatusIn(400, 500)), Count(h, StatusFrom(500)),
      MinOf(l), MaxOf(l), Bytes(h),
      Count(h, FailedWith(DnsError)), Count(h, FailedWith(ConnectionError)),
      Count(h, FailedWith(Timeout)), Count(h, FailedWith(ReceiveError)),
      LastOf(l, WINDOW))
  }

  function LastHealth(h: seq<Event>): int {
    if h == [] then UNKNOWN
    else ComputeHealth(Summary(h, LastHealth(h[..|h| - 1])))
  }

  function StatsOf(h: seq<Event>): SiteStats {
    Summary(h, LastHealth(h))
  }

  // ---- The numbers exported for one site ----

  /** Division of the source: it truncates toward zero. */
  function TruncatedQuotient(a: int, b: nat): (q: int)
    requires b > 0
    ensures 0 <= a ==> b * q <= a < b * q + b
    ensures a <= 0 ==> b * q - b < a <= b * q
  {
    if a >= 0 then a / b else -((-a) / b)
  }

  datatype Exported = Exported(
    success: nat, failure: nat,
    dnsFailures: nat, connectionErrors: nat, timeouts: nat, receiveErrors: nat,
    avg: int, p50: int, p90: int, p99: int, min: int, max: int,
    bytes: nat,
    health: int,
    http2xx: nat, http3xx: nat, http4xx: nat, http5xx: nat)

  function ExportOf(s: SiteStats): Exported {
    Exported(
      s.successCount, s.failureCount,
      s.dnsFailures, s.connectionErrors, s.timeouts, s.receiveErrors,
      if s.successCount > 0 then TruncatedQuotient(s.totalLatency, s.successCount) else 0,
      Percentile(s.latencies, 50), Percentile(s.latencies, 90), Percentile(s.latencies, 99),
      if s.minLatency == LONG_MAX then 0 else s.minLatency,
      s.maxLatency,
      s.totalBytes,
      ComputeHealth(s),
      s.http2xx, s.http3xx, s.http4xx, s.http5xx)
  }

  // ---- One more event ----

  lemma SnocParts(h: seq<Event>, e: Event)
    ensures (h + [e])[..|h + [e]| - 1] == h && (h + [e])[|h + [e]| - 1] == e
    ensures Latencies(h + [e]) == if e.Served? then Latencies(h) + [e.latency as int] else Latencies(h)
    ensures Bytes(h + [e]) == Bytes(h) + if e.Served? then e.bytes else 0
    ensures TrailingFailures(h + [e]) == if e.Served? then 0 else 1 + TrailingFailures(h)
  {
    assert (h + [e])[..|h|] == h;
  }

  lemma SnocCount(h: seq<Event>, e: Event)
    ensures forall kind :: Count(h + [e], kind) == Count(h, kind) + if Is(e, kind) then 1 else 0
  {
    assert (h + [e])[..|h|] == h;
  }

  lemma SnocFold(l: seq<int>, x: int)
    ensures Sum(l + [x]) == Sum(l) + x
    ensures MinOf(l + [x]) == if x < MinOf(l) then x else MinOf(l)
    ensures MaxOf(l + [x]) == if x > MaxOf(l) then x else MaxOf(l)
  {
    assert (l + [x])[..|l|] == l;
  }

  /** Push at the back and, when the window overflows, pop at the front. */
  function PushWindow(w: seq<int>, x: int): seq<int> {
    if |w| + 1 > WINDOW then (w + [x])[1..] else w + [x]
  }

  lemma SnocWindow(l: seq<int>, x: int)
    ensures LastOf(l + [x], WINDOW) == PushWindow(LastOf(l, WINDOW), x)
  {
  }

  lemma ServedSummary(h: seq<Event>, e: Event, last: int)
    requires e.Served?
    ensures var s, s' := Summary(h, last), Summary(h + [e], last);
      s' == s.(totalLatency := s.totalLatency + e.latency,
               successCount := s.successCount + 1,
               totalBytes := s.totalBytes + e.bytes,
               consecutiveFailures := 0,
               minLatency := if e.latency < s.minLatency then e.latency else s.minLatency,
               maxLatency := if e.latency > s.maxLatency then e.latency else s.maxLatency,
               latencies := PushWindow(s.latencies, e.latency),
               http2xx := s.http2xx + if 200 <= e.status < 300 then 1 else 0,
               http3xx := s.http3xx + if 300 <= e.status < 400 then 1 else 0,
               http4xx := s.http4xx + if 400 <= e.status < 500 then 1 else 0,
               http5xx := s.http5xx + if 500 <= e.status then 1 else 0)
  {
    SnocParts(h, e);
    SnocCount(h, e);
    SnocFold(Latencies(h), e.latency);
    SnocWindow(Latencies(h), e.latency);
  }

  lemma FailureSummary(h: seq<Event>, e: Event, last: int)
    requires !e.Served?
    ensures var s, s' := Summary(h, last), Summary(h + [e], last);
      s' == s.(failureCount := s.failureCount + 1,
               consecutiveFailures := s.consecutiveFailures + 1,
               dnsFailures := s.dnsFailures + if e == Failed(DnsError) then 1 else 0,
               connectionErrors := s.connectionErrors + if e == Failed(ConnectionError) then 1 else 0,
               timeouts := s.timeouts + if e == Failed(Timeout) then 1 else 0,
               receiveErrors := s.receiveErrors + if e == Failed(ReceiveError) then 1 else 0)
  {
    SnocParts(h, e);
    SnocCount(h, e);
  }

  lemma SnocStats(h: seq<Event>, e: Event)
    ensures var s := Summary(h + [e], LastHealth(h));
            StatsOf(h + [e]) == s.(lastHealth := ComputeHealth(s))
  {
    SnocParts(h, e);
  }

  function HistoryIn(histories: map<Host, seq<Event>>, host: Host): seq<Event> {
    if host in histories then histories[host] else []
  }

  function Recorded(histories: map<Host, seq<Event>>, host: Host, events: seq<Event>): map<Host, seq<Event>> {
    if events == [] then histories else histories[host := HistoryIn(histories, host) + events]
  }

  /** The statistics table, shared by every caller. */
  class Metrics {
    var statsMap: map<Host, SiteStats>
    // Every event recorded for each host, in order.
    ghost var history: map<Host, seq<Event>>

    ghost function HistoryOf(url: Host): seq<Event>
      reads this
    {
      HistoryIn(history, url)
    }

    ghost predicate Valid()
      reads this
    {
      && statsMap.Keys == history.Keys
      && forall url :: url in history ==> history[url] != [] && statsMap[url] == StatsOf(history[url])
    }

    constructor ()
      ensures Valid() && history == map[]
    {
      statsMap, history := map[], map[];
    }

    function Entry(url: Host): (s: SiteStats)
      requires Valid()
      reads this
      ensures s == StatsOf(HistoryOf(url))
    {
      if url in statsMap then statsMap[url] else FRESH
    }

    method RecordSuccess(url: Host, latency: Long, bytes: nat, statusCode: int)
      requires Valid()
      modifies this
      ensures Valid()
      ensures history == Recorded(old(history), url, [Served(latency, bytes, statusCode)])
    {
      var s := Entry(url);
      s := s.(totalLatency := s.totalLatency + latency);
      s := s.(successCount := s.successCount + 1);
      s := s.(totalBytes := s.totalBytes + bytes);
      s := s.(consecutiveFailures := 0);
      s := AddLatency(s, latency);
      s := ClassifyStatus(s, statusCode);
      ServedSummary(HistoryOf(url), Served(latency, bytes, statusCode), LastHealth(HistoryOf(url)));
      EvaluateAndAlert(url, s, Served(latency, bytes, statusCode));
    }

    static method AddLatency(s: SiteStats, latency: Long) returns (r: SiteStats)
      ensures r == s.(minLatency := if latency < s.minLatency then latency else s.minLatency,
                      maxLatency := if latency > s.maxLatency then latency else s.maxLatency,
                      latencies := PushWindow(s.latencies, latency))
    {
      r := s;
      if latency < r.minLatency {
        r := r.(minLatency := latency);
      }
      if latency > r.maxLatency {
        r := r.(maxLatency := latency);
      }
      r := r.(latencies := r.latencies + [latency]);
      if |r.latencies| > WINDOW {
        r := r.(latencies := r.latencies[1..]);
      }
    }

    static method ClassifyStatus(s: SiteStats, statusCode: int) returns (r: SiteStats)
      ensures r == s.(http2xx := s.http2xx + if 200 <= statusCode < 300 then 1 else 0,
                      http3xx := s.http3xx + if 300 <= statusCode < 400 then 1 else 0,
                      http4xx := s.http4xx + if 400 <= statusCode < 500 then 1 else 0,
                      http5xx := s.http5xx + if 500 <= statusCode then 1 else 0)
    {
      r := s;
      if statusCode >= 200 && statusCode < 300 {
        r := r.(http2xx := r.http2xx + 1);
      } else if statusCode >= 300 && statusCode < 400 {
        r := r.(http3xx := r.http3xx + 1);
      } else if statusCode >= 400 && statusCode < 500 {
        r := r.(http4xx := r.http4xx + 1);
      } else if statusCode >= 500 {
        r := r.(http5xx := r.http5xx + 1);
      }
    }

    method RecordFailure(url: Host)
      requires Valid()
      modifies this
      ensures Valid()
      ensures history == Recorded(old(history), url, [Generic])
    {
      var s := Entry(url);
      s := s.(failureCount := s.failureCount + 1);
      s := s.(consecutiveFailures := s.consecutiveFailures + 1);
      FailureSummary(HistoryOf(url), Generic, LastHealth(HistoryOf(url)));
      EvaluateAndAlert(url, s, Generic);
    }

    method RecordFailureType(url: Host, result: CheckResult)
      requires Valid()
      modifies this
      ensures Valid()
      ensures history == Recorded(old(history), url, [Failed(result)])
    {
      var s := Entry(url);
      s := s.(failureCount := s.failureCount + 1);
      s := s.(consecutiveFailures := s.consecutiveFailures + 1);
      s := ClassifyFailure(s, result);
      FailureSummary(HistoryOf(url), Failed(result), LastHealth(HistoryOf(url)));
      EvaluateAndAlert(url, s, Failed(result));
    }

    static method ClassifyFailure(s: SiteStats, result: CheckResult) returns (r: SiteStats)
      ensures r == s.(dnsFailures := s.dnsFailures + if result == DnsError then 1 else 0,
                      connectionErrors := s.connectionErrors + if result == ConnectionError then 1 else 0,
                      timeouts := s.timeouts + if result == Timeout then 1 else 0,
                      receiveErrors := s.receiveErrors + if result == ReceiveError then 1 else 0)
    {
      r := s;
      match result {
        case DnsError => r := r.(dnsFailures := r.dnsFailures + 1);
        case ConnectionError => r := r.(connectionErrors := r.connectionErrors + 1);
        case Timeout => r := r.(timeouts := r.timeouts + 1);
        case ReceiveError => r := r.(receiveErrors := r.receiveErrors + 1);
        case _ =>
      }
    }

    /** Store the updated record with its new health; `e` is the event that was just counted into it. */
    method EvaluateAndAlert(url: Host, s: SiteStats, ghost e: Event)
      requires Valid()
      requires s == Summary(HistoryOf(url) + [e], LastHealth(HistoryOf(url)))
      modifies this
      ensures Valid()
      ensures history == Recorded(old(history), url, [e])
    {
      SnocStats(HistoryOf(url), e);
      statsMap := statsMap[url := s.(lastHealth := ComputeHealth(s))];
      history := history[url := HistoryOf(url) + [e]];
    }

    /** A site without statistics counts as healthy. */
    method GetHealth(url: Host) returns (health: int)
      requires Valid()
      ensures health == HealthAfter(HistoryOf(url))
    {
      if url !in statsMap {
        return HEALTHY;
      }
      health := ComputeHealth(statsMap[url]);
    }

    method ExportMetrics() returns (numbers: map<Host, Exported>)
      requires Valid()
      ensures numbers.Keys == history.Keys
      ensures forall url :: url in numbers ==> numbers[url] == ExportOf(StatsOf(history[url]))
    {
      numbers := map[];
      var left := statsMap.Keys;
      while left != {}
        invariant left <= statsMap.Keys && numbers.Keys == statsMap.Keys - left
        invariant forall url :: url in numbers ==> numbers[url] == ExportOf(StatsOf(history[url]))
      {
        var url :| url in left;
        numbers := numbers[url := ExportOf(statsMap[url])];
        left := left - {url};
      }
    }
  }

  function HealthAfter(h: seq<Event>): int {
    if h == [] then HEALTHY else ComputeHealth(StatsOf(h))
  }
}
