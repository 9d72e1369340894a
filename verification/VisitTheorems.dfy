/** What one visit of the scheduler does to a site, case by case: whether it probes, and what the probe changes. */
module VisitTheorems {
  import opened TimeWindows
  import opened Metrics
  import opened ExportTheorems
  import opened MonitorManager
  import opened BreakerTheorems

  // ---- Whether a visit probes ----

  lemma SecondsPassed(elapsed: int, seconds: int)
    requires 0 <= elapsed
    ensures TruncatedQuotient(elapsed, SECOND) >= seconds <==> elapsed >= seconds * 1_000_000_000
  {
  }

  /** The seconds a site waits between probes; codes 2 and 3 are SLOW and DEGRADED. */
  function WaitBetween(s: Site, health: int): int {
    if s.breaker != Closed || (health != 2 && health != 3) then s.intervalSec
    else if s.intervalSec >= 2 then s.intervalSec / 2
    else 1
  }

  lemma IntervalIsWait(s: Site, h: seq<Event>)
    requires Aligned(s, h)
    ensures EffectiveInterval(s.intervalSec, HealthAfter(h)) == WaitBetween(s, HealthAfter(h))
  {
    DownIffBreakerNotClosed(s, h);
  }

  /**
    * An OPEN breaker keeps a site as it is exactly until its cooldown is over. Apart from that, the site is
    * probed exactly if its interval has passed: half of it, but at least a second, for a slow or degraded site
    * in CLOSED. A site whose cooldown is over and whose interval is not becomes HALF_OPEN unprobed.
    */
  lemma ProbesExactlyWhen(s: Site, h: seq<Event>, v: Visit)
    requires Aligned(s, h) && (s.breaker == Open ==> s.breakerOpenTime <= v.now)
    ensures var visited := VisitSite(s, h, v);
            var cooling := s.breaker == Open && v.now - s.breakerOpenTime < s.cooldownSeconds * 1_000_000_000;
            var due := v.now - s.lastChecked >= WaitBetween(s, HealthAfter(h)) * 1_000_000_000;
      && (visited.events != [] <==> !cooling && due)
      && (cooling ==> visited.site == s)
      && (!cooling && !due ==> visited.site == if s.breaker == Open then s.(breaker := HalfOpen) else s)
      && (s.breaker == Open ==> (visited == Visited(s, []) <==> cooling))
  {
    IntervalIsWait(s, h);
    if s.breaker == Open {
      SecondsPassed(v.now - s.breakerOpenTime, s.cooldownSeconds);
    }
  }

  /** In particular, an OPEN breaker waits its cooldown and then the site's full interval. */
  lemma OpenProbesAfterCooldown(s: Site, h: seq<Event>, v: Visit)
    requires Aligned(s, h) && s.breaker == Open && s.breakerOpenTime <= v.now
    ensures VisitSite(s, h, v).events != [] <==>
              && v.now - s.breakerOpenTime >= s.cooldownSeconds * 1_000_000_000
              && v.now - s.lastChecked >= s.intervalSec * 1_000_000_000
  {
    ProbesExactlyWhen(s, h, v);
  }

  /** A newly added site is first probed one interval after it was added. */
  lemma NewSiteWaitsOneInterval(host: Host, interval: int, added: int, v: Visit)
    ensures VisitSite(NewSite(host, interval, added), [], v).events != [] <==>
              v.now - added >= interval * 1_000_000_000
    ensures NewSite(host, interval, added).host == host
  {
    NewSiteAligned(host, interval, added);
    ProbesExactlyWhen(NewSite(host, interval, added), [], v);
  }

  // ---- How long the breaker cools down ----

  /** In seconds, by how often it opened since the last recovery. */
  lemma CooldownTable(s: Site)
    requires CooldownRight(s) && s.openAttempts <= 27 && (s.breaker == Closed <==> s.openAttempts == 0)
    ensures s.cooldownSeconds ==
              if s.openAttempts == 0 then 10
              else if s.openAttempts == 1 then 20
              else if s.openAttempts == 2 then 40
              else if s.openAttempts == 3 then 80
              else if s.openAttempts == 4 then 160
              else 300
  {
    assert Pow2(2) == 4 && Pow2(4) == 16 && Pow2(5) == 32;
    if s.openAttempts >= 5 {
      Pow2Grows(5, s.openAttempts);
    }
  }

  // ---- What a probe records ----

  /** A visit that probes records exactly the response: its numbers if it succeeded, its kind if not. */
  lemma ProbeIsRecorded(s: Site, h: seq<Event>, v: Visit)
    requires VisitSite(s, h, v).events != []
    ensures var r := v.response;
            var x, y := ExportOf(StatsOf(h)), ExportOf(StatsOf(h + VisitSite(s, h, v).events));
      && (r.result == SuccessResult ==>
            && y.success == x.success + 1 && y.failure == x.failure && y.bytes == x.bytes + r.bytes
            && y.http2xx == x.http2xx + If(200 <= r.status <= 299)
            && y.http3xx == x.http3xx + If(300 <= r.status <= 399)
            && y.http4xx == x.http4xx + If(400 <= r.status <= 499)
            && y.http5xx == x.http5xx + If(r.status >= 500)
            && Latencies(h + VisitSite(s, h, v).events) == Latencies(h) + [r.latency as int])
      && (r.result != SuccessResult ==>
            && y.success == x.success && y.failure == x.failure + 1
            && Latencies(h + VisitSite(s, h, v).events) == Latencies(h))
      && y.dnsFailures == x.dnsFailures + If(r.result == DnsError)
      && y.connectionErrors == x.connectionErrors + If(r.result == ConnectionError)
      && y.timeouts == x.timeouts + If(r.result == Timeout)
      && y.receiveErrors == x.receiveErrors + If(r.result == ReceiveError)
  {
    var r := v.response;
    assert VisitSite(s, h, v).events == [EventOf(r)];
    if r.result == SuccessResult {
      OneMoreSuccess(h, r.latency, r.bytes, r.status);
    } else {
      OneMoreFailure(h, EventOf(r));
    }
  }
}
