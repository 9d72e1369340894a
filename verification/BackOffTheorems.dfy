/** How far apart the probes of a failing site are, over whole runs. */
module BackOffTheorems {
  import opened TimeWindows
  import opened Metrics
  import opened MonitorManager
  import opened BreakerTheorems

  /** One site over a sequence of visits, with the times at which it was actually probed. */
  datatype Trace = Trace(site: Site, history: seq<Event>, probes: seq<int>)

  function Next(t: Trace, v: Visit): Trace {
    var visited := VisitSite(t.site, t.history, v);
    Trace(visited.site, t.history + visited.events, if visited.events == [] then t.probes else t.probes + [v.now])
  }

  function Run(s: Site, h: seq<Event>, visits: seq<Visit>): Trace {
    if visits == [] then Trace(s, h, [])
    else Next(Run(s, h, visits[..|visits| - 1]), visits[|visits| - 1])
  }

  /** Probe m (counting from 0) keeps at least this many seconds from probe m - 1. */
  function Gap(m: nat, interval: int): int {
    if m % 3 == 0 then Max(BackOff(m / 3), interval)
    else if m < 3 then Max(1, interval / 2)
    else interval
  }

  /** ... and so this many seconds from probe 0. */
  function Distance(m: nat, interval: int): int {
    if m == 0 then 0 else Distance(m - 1, interval) + Gap(m, interval)
  }

  /** The clock never runs backwards and no check succeeds. */
  ghost predicate Outage(visits: seq<Visit>) {
    && (forall i, j :: 0 <= i < j < |visits| ==> visits[i].now <= visits[j].now)
    && (forall i :: 0 <= i < |visits| ==> visits[i].response.result != SuccessResult)
  }

  /** A newly added site, or one whose last check succeeded. */
  ghost predicate Recovered(s: Site, h: seq<Event>) {
    Aligned(s, h) && s.breaker == Closed && s.localFailures == 0 && s.cooldownSeconds == 10
  }

  /** What holds between visits of an outage; `clock` is the time of the latest visit. */
  ghost predicate Waiting(t: Trace, interval: int, clock: int) {
    && t.site.intervalSec == interval
    && Aligned(t.site, t.history) && CooldownRight(t.site)
    && |t.probes| == 3 * t.site.openAttempts + t.site.localFailures
    && (t.probes != [] ==> t.site.lastChecked == t.probes[|t.probes| - 1] <= clock)
    && (t.site.breaker != Closed && t.site.localFailures == 0 ==> t.site.breakerOpenTime == t.site.lastChecked)
    && (t.site.breaker == Open ==> t.site.localFailures == 0)
    && (t.site.breaker == HalfOpen && t.site.localFailures == 0 ==>
          clock - t.site.lastChecked >= t.site.cooldownSeconds * SECOND)
  }

  lemma FloorOfSeconds(elapsed: int, seconds: int)
    requires 0 <= elapsed && TruncatedQuotient(elapsed, SECOND) >= seconds
    ensures elapsed >= seconds * SECOND
  {
  }

  /** The next probe keeps its gap from the previous one. */
  lemma ProbeKeepsGap(t: Trace, v: Visit, interval: int, clock: int)
    requires Waiting(t, interval, clock) && clock <= v.now && 1 <= interval && t.probes != []
    requires VisitSite(t.site, t.history, v).events != [] && |t.probes| <= 3 * 27 + 2
    ensures v.now - t.probes[|t.probes| - 1] >= Gap(|t.probes|, interval) * SECOND
  {
    DownIffBreakerNotClosed(t.site, t.history);
    var s := t.site;
    if s.breaker == Open {
      FloorOfSeconds(v.now - s.breakerOpenTime, s.cooldownSeconds);
    }
    assert |t.probes| % 3 == s.localFailures && |t.probes| / 3 == s.openAttempts;
  }

  /** The visit probes the site. */
  predicate Probes(t: Trace, v: Visit) {
    VisitSite(t.site, t.history, v).events != []
  }

  lemma CooldownPassed(t: Trace, v: Visit, interval: int, clock: int)
    requires Waiting(t, interval, clock) && clock <= v.now
    requires t.site.breaker == Open && CooldownOver(t.site, v.now)
    ensures v.now - t.site.lastChecked >= t.site.cooldownSeconds * SECOND
  {
    FloorOfSeconds(v.now - t.site.breakerOpenTime, t.site.cooldownSeconds);
  }

  lemma SkippedKeepsWaiting(t: Trace, v: Visit, interval: int, clock: int)
    requires Waiting(t, interval, clock) && clock <= v.now && !Probes(t, v)
    requires Aligned(Next(t, v).site, Next(t, v).history) && CooldownRight(Next(t, v).site)
    ensures Waiting(Next(t, v), interval, v.now)
  {
    if t.site.breaker == Open && CooldownOver(t.site, v.now) {
      CooldownPassed(t, v, interval, clock);
    }
  }

  lemma ThirdFailureKeepsWaiting(t: Trace, v: Visit, interval: int, clock: int)
    requires Waiting(t, interval, clock) && clock <= v.now && Probes(t, v)
    requires v.response.result != SuccessResult && t.site.localFailures == 2
    requires Aligned(Next(t, v).site, Next(t, v).history) && CooldownRight(Next(t, v).site)
    ensures Waiting(Next(t, v), interval, v.now)
  {
  }

  lemma OtherFailureKeepsWaiting(t: Trace, v: Visit, interval: int, clock: int)
    requires Waiting(t, interval, clock) && clock <= v.now && Probes(t, v)
    requires v.response.result != SuccessResult && t.site.localFailures < 2
    requires Aligned(Next(t, v).site, Next(t, v).history) && CooldownRight(Next(t, v).site)
    ensures Waiting(Next(t, v), interval, v.now)
  {
  }

  lemma VisitKeepsWaiting(t: Trace, v: Visit, interval: int, clock: int)
    requires Waiting(t, interval, clock) && v.response.result != SuccessResult && clock <= v.now
    ensures Waiting(Next(t, v), interval, v.now)
  {
    VisitKeepsAligned(t.site, t.history, v);
    VisitKeepsCooldown(t.site, t.history, v);
    if !Probes(t, v) {
      SkippedKeepsWaiting(t, v, interval, clock);
    } else if t.site.localFailures == 2 {
      ThirdFailureKeepsWaiting(t, v, interval, clock);
    } else {
      OtherFailureKeepsWaiting(t, v, interval, clock);
    }
  }

  /** The clock after some visits. */
  function ClockAfter(visits: seq<Visit>, clock: int): int {
    if visits == [] then clock else visits[|visits| - 1].now
  }

  lemma {:induction false} RunWaits(s: Site, h: seq<Event>, visits: seq<Visit>, clock: int)
    requires Outage(visits) && (visits != [] ==> clock <= visits[0].now)
    requires Recovered(s, h)
    ensures Waiting(Run(s, h, visits), s.intervalSec, ClockAfter(visits, clock))
  {
    if visits != [] {
      var earlier := visits[..|visits| - 1];
      RunWaits(s, h, earlier, clock);
      VisitKeepsWaiting(Run(s, h, earlier), visits[|visits| - 1], s.intervalSec, ClockAfter(earlier, clock));
    }
  }

  /** The bound, for the probes up to the attempt the 32-bit arithmetic is defined for. */
  ghost predicate Spaced(probes: seq<int>, interval: int) {
    forall m :: 0 <= m < |probes| && m <= 3 * 27 + 2 ==> probes[m] - probes[0] >= Distance(m, interval) * SECOND
  }

  lemma SpacedPush(probes: seq<int>, x: int, interval: int)
    requires Spaced(probes, interval)
    requires probes != [] && |probes| <= 3 * 27 + 2 ==>
               x - probes[|probes| - 1] >= Gap(|probes|, interval) * SECOND
    ensures Spaced(probes + [x], interval)
  {
    if probes != [] && |probes| <= 3 * 27 + 2 {
      var m := |probes|;
      assert probes[m - 1] - probes[0] >= Distance(m - 1, interval) * SECOND;
      assert Distance(m, interval) == Distance(m - 1, interval) + Gap(m, interval);
    }
  }

  lemma {:induction false} TraceKeepsDistance(s: Site, h: seq<Event>, visits: seq<Visit>, clock: int)
    requires Outage(visits) && 1 <= s.intervalSec && (visits != [] ==> clock <= visits[0].now)
    requires Recovered(s, h)
    ensures Spaced(Run(s, h, visits).probes, s.intervalSec)
  {
    if visits != [] {
      var earlier, v := visits[..|visits| - 1], visits[|visits| - 1];
      TraceKeepsDistance(s, h, earlier, clock);
      RunWaits(s, h, earlier, clock);
      NextKeepsSpaced(Run(s, h, earlier), v, s.intervalSec, ClockAfter(earlier, clock));
    }
  }

  lemma NextKeepsSpaced(t: Trace, v: Visit, interval: int, clock: int)
    requires Waiting(t, interval, clock) && clock <= v.now && 1 <= interval
    requires Spaced(t.probes, interval)
    ensures Spaced(Next(t, v).probes, interval)
  {
    if VisitSite(t.site, t.history, v).events != [] {
      if t.probes != [] && |t.probes| <= 3 * 27 + 2 {
        ProbeKeepsGap(t, v, interval, clock);
      }
      SpacedPush(t.probes, v.now, interval);
    }
  }

  function SumBackOff(k: nat): int {
    if k == 0 then 0 else SumBackOff(k - 1) + BackOff(k)
  }

  /** 20, 40, 80, 160 and then 300 seconds each. */
  lemma {:induction false} SumOfCooldowns(k: nat)
    ensures SumBackOff(k) ==
              if k == 0 then 0
              else if k == 1 then 20
              else if k == 2 then 60
              else if k == 3 then 140
              else 300 * (k - 3)
  {
    if k > 0 {
      SumOfCooldowns(k - 1);
      if k >= 5 {
        assert Pow2(5) == 32;
        Pow2Grows(5, k);
      } else {
        assert Pow2(2) == 4 && Pow2(4) == 16;
      }
    }
  }

  lemma OneCycle(k: nat, interval: int)
    requires 1 <= interval
    ensures Distance(3 * k + 3, interval) >= Distance(3 * k, interval) + 2 * Max(1, interval / 2) + BackOff(k + 1)
  {
    var m := 3 * k;
    assert Distance(m + 1, interval) == Distance(m, interval) + Gap(m + 1, interval);
    assert Distance(m + 2, interval) == Distance(m + 1, interval) + Gap(m + 2, interval);
    assert Distance(m + 3, interval) == Distance(m + 2, interval) + Gap(m + 3, interval);
    assert (m + 1) % 3 == 1 && (m + 2) % 3 == 2 && (m + 3) % 3 == 0 && (m + 3) / 3 == k + 1;
  }

  /** Two shortest intervals per cycle. */
  function Waits(k: nat, interval: int): int {
    if k == 0 then 0 else Waits(k - 1, interval) + 2 * Max(1, interval / 2)
  }

  lemma {:induction false} WaitsProduct(k: nat, interval: int)
    ensures Waits(k, interval) == 2 * k * Max(1, interval / 2)
  {
    if k > 0 {
      WaitsProduct(k - 1, interval);
      DistributeOne(k, Max(1, interval / 2));
    }
  }

  lemma DistributeOne(k: int, x: int)
    ensures 2 * (k - 1) * x + 2 * x == 2 * k * x
  {
  }

  lemma {:induction false} DistanceOfCycles(k: nat, interval: int)
    requires 1 <= interval
    ensures Distance(3 * k, interval) >= SumBackOff(k) + Waits(k, interval)
  {
    if k > 0 {
      DistanceOfCycles(k - 1, interval);
      OneCycle(k - 1, interval);
    }
  }

  // ---- The same for a site of the scheduler ----

  /** What the passes of the scheduler bring to site i. */
  function Column(passes: seq<seq<Visit>>, i: nat): seq<Visit>
    requires forall k :: 0 <= k < |passes| ==> i < |passes[k]|
  {
    if passes == [] then [] else Column(passes[..|passes| - 1], i) + [passes[|passes| - 1][i]]
  }

  /** The times at which a run of the scheduler probes site i: when something is recorded for its host. */
  function ProbeTimes(f: Fleet, passes: seq<seq<Visit>>, i: nat): seq<int>
    requires (forall k :: 0 <= k < |passes| ==> |passes[k]| == |f.sites|) && i < |f.sites|
  {
    if passes == [] then []
    else
      var earlier := passes[..|passes| - 1];
      ProbeTimes(f, earlier, i) +
      if |Passes(f, earlier).HistoryOf(i)| < |Passes(f, passes).HistoryOf(i)| then [passes[|passes| - 1][i].now] else []
  }

  /** With distinct hosts, a site of the scheduler goes through the visits of its own column. */
  lemma {:induction false} SiteFollowsColumn(f: Fleet, passes: seq<seq<Visit>>, i: nat)
    requires forall k :: 0 <= k < |passes| ==> |passes[k]| == |f.sites|
    requires i < |f.sites| && DistinctHosts(f.sites)
    ensures DistinctHosts(Passes(f, passes).sites)
    ensures var t := Run(f.sites[i], f.HistoryOf(i), Column(passes, i));
            t == Trace(Passes(f, passes).sites[i], Passes(f, passes).HistoryOf(i), ProbeTimes(f, passes, i))
  {
    if passes != [] {
      var earlier, last := passes[..|passes| - 1], passes[|passes| - 1];
      SiteFollowsColumn(f, earlier, i);
      var column := Column(passes, i);
      assert column[..|column| - 1] == Column(earlier, i) && column[|column| - 1] == last[i];
      var g := Passes(f, earlier);
      SitesAreIndependent(g, last, |g.sites|, i);
      PassKeepsHosts(g, last);
    }
  }

  lemma PassKeepsHosts(f: Fleet, visits: seq<Visit>)
    requires |visits| == |f.sites| && DistinctHosts(f.sites)
    ensures DistinctHosts(PassTo(f, visits, |f.sites|).sites)
  {
    forall i | 0 <= i < |f.sites| ensures PassTo(f, visits, |f.sites|).sites[i].host == f.sites[i].host {
      SitesAreIndependent(f, visits, |f.sites|, i);
    }
  }

  /** Every site of every run of the scheduler: while its checks fail, probe m keeps its distance from the first. */
  lemma ProbesKeepDistance(f: Fleet, passes: seq<seq<Visit>>, i: nat)
    requires forall k :: 0 <= k < |passes| ==> |passes[k]| == |f.sites|
    requires i < |f.sites| && DistinctHosts(f.sites) && Recovered(f.sites[i], f.HistoryOf(i))
    requires Outage(Column(passes, i)) && 1 <= f.sites[i].intervalSec
    ensures Spaced(ProbeTimes(f, passes, i), f.sites[i].intervalSec)
  {
    var column := Column(passes, i);
    SiteFollowsColumn(f, passes, i);
    TraceKeepsDistance(f.sites[i], f.HistoryOf(i), column, if column == [] then 0 else column[0].now);
  }

  /**
    * During an outage of a recovered site, its probe number 3k + 1 comes no earlier after the first one
    * than the first k cooldowns plus two shortest intervals per cycle, whatever happens to other sites.
    */
  lemma BackOffBound(f: Fleet, passes: seq<seq<Visit>>, i: nat, k: nat)
    requires forall p :: 0 <= p < |passes| ==> |passes[p]| == |f.sites|
    requires i < |f.sites| && DistinctHosts(f.sites) && Recovered(f.sites[i], f.HistoryOf(i))
    requires Outage(Column(passes, i)) && 1 <= f.sites[i].intervalSec
    requires k <= 27 && 3 * k < |ProbeTimes(f, passes, i)|
    ensures var probes, interval := ProbeTimes(f, passes, i), f.sites[i].intervalSec;
      probes[3 * k] - probes[0] >= (SumBackOff(k) + 2 * k * Max(1, interval / 2)) * SECOND
  {
    ProbesKeepDistance(f, passes, i);
    DistanceOfCycles(k, f.sites[i].intervalSec);
    WaitsProduct(k, f.sites[i].intervalSec);
  }

  /** Newly added sites are recovered. */
  lemma NewSiteRecovered(host: Host, interval: int, now: int)
    ensures Recovered(NewSite(host, interval, now), [])
  {
  }
}
