/** src/Monitoring/MonitorManager.cpp: the scheduler with its circuit breaker, driving the metrics. */
module MonitorManager {
  import opened TimeWindows
  import opened Metrics

  const INT_MAX: int := 0x7FFF_FFFF

  datatype Breaker = Closed | Open | HalfOpen

  datatype Site = Site(
    host: Host,
    intervalSec: int,
    lastChecked: int,
    breaker: Breaker,
    localFailures: nat,
    openAttempts: nat,
    cooldownSeconds: int,
    breakerOpenTime: int)

  function NewSite(host: Host, interval: int, now: int): Site {
    Site(host, interval, now, Closed, 0, 0, 10, 0)
  }

  datatype Response = Response(result: CheckResult, latency: Long, bytes: nat, status: int)

  /**
    * What the outside supplies to one pass over one site: the clock reading, the outcome of the check
    * if one is made, and the value an overflowing back-off expression happens to have.
    */
  datatype Visit = Visit(now: int, response: Response, overflow: int)

  function Pow2(k: nat): nat {
    if k == 0 then 1 else 2 * Pow2(k - 1)
  }

  function Min(a: int, b: int): int { if b < a then b else a }

  function Max(a: int, b: int): int { if a < b then b else a }

  /** The back-off the design asks for. */
  function BackOff(attempts: nat): int {
    Min(300, 10 * Pow2(attempts))
  }

  /** `std::min(300, 10 * (1 << attempts))` in 32-bit arithmetic, undefined once the product overflows. */
  function Cooldown32(attempts: nat, overflow: int): int {
    if 10 * Pow2(attempts) <= INT_MAX then BackOff(attempts) else overflow
  }

  function EffectiveInterval(interval: int, health: int): int {
    if health == DEGRADED || health == SLOW then Max(1, TruncatedQuotient(interval, 2)) else interval
  }

  /** The OPEN state's clock test. */
  predicate CooldownOver(s: Site, now: int) {
    TruncatedQuotient(now - s.breakerOpenTime, SECOND) >= s.cooldownSeconds
  }

  predicate Due(s: Site, h: seq<Event>, now: int) {
    now - s.lastChecked >= EffectiveInterval(s.intervalSec, HealthAfter(h)) * SECOND
  }

  function EventOf(r: Response): Event {
    if r.result == SuccessResult then Served(r.latency, r.bytes, r.status) else Failed(r.result)
  }

  function AfterProbe(s: Site, v: Visit): Site {
    var s1 :=
      if v.response.result == SuccessResult then
        var healed := s.(localFailures := 0);
        if s.breaker == HalfOpen then healed.(breaker := Closed, openAttempts := 0, cooldownSeconds := 10) else healed
      else if s.localFailures + 1 >= 3 then
        s.(breaker := Open, breakerOpenTime := v.now, openAttempts := s.openAttempts + 1,
           cooldownSeconds := Cooldown32(s.openAttempts + 1, v.overflow), localFailures := 0)
      else s.(localFailures := s.localFailures + 1);
    s1.(lastChecked := v.now)
  }

  /** What one loop iteration leaves: the site, and the events recorded for its host (none or one). */
  datatype Visited = Visited(site: Site, events: seq<Event>)

  function VisitSite(s: Site, h: seq<Event>, v: Visit): Visited {
    if s.breaker == Open && !CooldownOver(s, v.now) then Visited(s, [])
    else
      var s1 := if s.breaker == Open then s.(breaker := HalfOpen) else s;
      if !Due(s1, h, v.now) then Visited(s1, [])
      else Visited(AfterProbe(s1, v), [EventOf(v.response)])
  }

  /** All sites with the histories recorded in the metrics. */
  datatype Fleet = Fleet(sites: seq<Site>, histories: map<Host, seq<Event>>) {
    function HistoryOf(i: nat): seq<Event>
      requires i < |sites|
    {
      HistoryIn(histories, sites[i].host)
    }
  }

  function VisitOne(f: Fleet, i: nat, v: Visit): (r: Fleet)
    requires i < |f.sites|
    ensures |r.sites| == |f.sites|
  {
    var visited := VisitSite(f.sites[i], f.HistoryOf(i), v);
    Fleet(f.sites[i := visited.site], Recorded(f.histories, f.sites[i].host, visited.events))
  }

  /** The first `n` iterations of a pass, each seeing what the earlier ones recorded. */
  function PassTo(f: Fleet, visits: seq<Visit>, n: nat): (r: Fleet)
    requires n <= |f.sites| == |visits|
    ensures |r.sites| == |f.sites|
  {
    if n == 0 then f else VisitOne(PassTo(f, visits, n - 1), n - 1, visits[n - 1])
  }

  class MonitorManager {
    var sites: seq<Site>
    const metrics: Metrics

    ghost predicate Valid()
      reads this, metrics
    {
      metrics.Valid()
    }

    constructor (metrics: Metrics)
      requires metrics.Valid()
      ensures Valid() && sites == [] && this.metrics == metrics
    {
      this.metrics := metrics;
      sites := [];
    }

    method AddSite(host: Host, interval: int, now: int)
      requires Valid()
      modifies this
      ensures Valid() && sites == old(sites) + [NewSite(host, interval, now)]
    {
      sites := sites + [NewSite(host, interval, now)];
    }

    /** One pass of the scheduler over all sites, under the lock. */
    method SchedulerPass(visits: seq<Visit>)
      requires Valid() && |visits| == |sites|
      modifies this, metrics
      ensures Valid()
      ensures Fleet(sites, metrics.history) == PassTo(old(Fleet(sites, metrics.history)), visits, |visits|)
    {
      var i := 0;
      while i < |sites|
        invariant Valid() && |sites| == |old(sites)| && i <= |sites|
        invariant Fleet(sites, metrics.history) == PassTo(old(Fleet(sites, metrics.history)), visits, i)
      {
        CheckSiteAt(i, visits[i]);
        i := i + 1;
      }
    }

    method CheckSiteAt(i: nat, v: Visit)
      requires Valid() && i < |sites|
      modifies this, metrics
      ensures Valid()
      ensures Fleet(sites, metrics.history) == VisitOne(old(Fleet(sites, metrics.history)), i, v)
    {
      var site := CheckSite(sites[i], v);
      sites := sites[i := site];
    }

    /** The body of the loop for one site; it works on its record and records what the probe found. */
    method CheckSite(s: Site, v: Visit) returns (site: Site)
      requires Valid()
      modifies metrics
      ensures Valid()
      ensures var visited := VisitSite(s, HistoryIn(old(metrics.history), s.host), v);
              site == visited.site && metrics.history == Recorded(old(metrics.history), s.host, visited.events)
    {
      site := s;
      if site.breaker == Open {
        var elapsed := TruncatedQuotient(v.now - site.breakerOpenTime, SECOND);
        if elapsed >= site.cooldownSeconds {
          site := site.(breaker := HalfOpen);
        } else {
          return;
        }
      }
      var effectiveInterval := IntervalFor(site);
      if v.now - site.lastChecked < effectiveInterval * SECOND {
        return;
      }
      site := RecordProbe(site, v);
    }

    method IntervalFor(s: Site) returns (effectiveInterval: int)
      requires Valid()
      ensures effectiveInterval == EffectiveInterval(s.intervalSec, HealthAfter(HistoryIn(metrics.history, s.host)))
    {
      var health := metrics.GetHealth(s.host);
      effectiveInterval := s.intervalSec;
      if health == DEGRADED || health == SLOW {
        effectiveInterval := Max(1, TruncatedQuotient(s.intervalSec, 2));
      }
    }

    /** What a check's outcome does to the metrics and to the breaker. */
    method RecordProbe(s: Site, v: Visit) returns (site: Site)
      requires Valid()
      modifies metrics
      ensures Valid()
      ensures site == AfterProbe(s, v)
      ensures metrics.history == Recorded(old(metrics.history), s.host, [EventOf(v.response)])
    {
      if v.response.result == SuccessResult {
        metrics.RecordSuccess(s.host, v.response.latency, v.response.bytes, v.response.status);
      } else {
        metrics.RecordFailureType(s.host, v.response.result);
      }
      site := UpdateBreaker(s, v);
      site := site.(lastChecked := v.now);
    }

    method UpdateBreaker(s: Site, v: Visit) returns (site: Site)
      ensures site.(lastChecked := v.now) == AfterProbe(s, v)
    {
      site := s;
      if v.response.result == SuccessResult {
        site := site.(localFailures := 0);
        if site.breaker == HalfOpen {
          site := site.(breaker := Closed);
          site := site.(openAttempts := 0);
          site := site.(cooldownSeconds := 10);
        }
      } else {
        site := site.(localFailures := site.localFailures + 1);
        if site.localFailures >= 3 {
          site := site.(breaker := Open);
          site := site.(breakerOpenTime := v.now);
          site := site.(openAttempts := site.openAttempts + 1);
          site := site.(cooldownSeconds := Cooldown32(site.openAttempts, v.overflow));
          site := site.(localFailures := 0);
        }
      }
    }
  }
}
