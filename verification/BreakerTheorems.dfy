/** Breaker and metrics count failures in two places; these are the invariants that keep them aligned. */
module BreakerTheorems {
  import opened TimeWindows
  import opened Metrics
  import opened MonitorManager

  // ---- Alignment ----

  /** Between visits the metrics' failure run and the breaker's own counters tell the same story. */
  ghost predicate Aligned(s: Site, h: seq<Event>) {
    && TrailingFailures(h) == 3 * s.openAttempts + s.localFailures
    && s.localFailures < 3
    && (s.breaker == Closed <==> s.openAttempts == 0)
  }

  lemma NewSiteAligned(host: Host, interval: int, now: int)
    ensures Aligned(NewSite(host, interval, now), [])
  {
  }

  lemma ProbeKeepsAligned(s: Site, h: seq<Event>, v: Visit)
    requires Aligned(s, h) && s.breaker != Open
    ensures Aligned(AfterProbe(s, v), h + [EventOf(v.response)])
  {
    SnocParts(h, EventOf(v.response));
  }

  lemma VisitKeepsAligned(s: Site, h: seq<Event>, v: Visit)
    requires Aligned(s, h)
    ensures Aligned(VisitSite(s, h, v).site, h + VisitSite(s, h, v).events)
  {
    if VisitSite(s, h, v).events == [] {
      assert h + [] == h;
    } else {
      ProbeKeepsAligned(if s.breaker == Open then s.(breaker := HalfOpen) else s, h, v);
    }
  }

  /** A site is reported DOWN exactly while its breaker is not CLOSED ... */
  lemma DownIffBreakerNotClosed(s: Site, h: seq<Event>)
    requires Aligned(s, h)
    ensures HealthAfter(h) == DOWN <==> s.breaker != Closed
  {
  }

  /** ... so the interval is halved in CLOSED only. */
  lemma IntervalHalvedOnlyWhenClosed(s: Site, h: seq<Event>)
    requires Aligned(s, h) && EffectiveInterval(s.intervalSec, HealthAfter(h)) != s.intervalSec
    ensures s.breaker == Closed
  {
    DownIffBreakerNotClosed(s, h);
  }

  // ---- Whole passes over many sites ----

  ghost predicate DistinctHosts(sites: seq<Site>) {
    forall i, j :: 0 <= i < j < |sites| ==> sites[i].host != sites[j].host
  }

  ghost predicate AllAligned(f: Fleet) {
    forall i :: 0 <= i < |f.sites| ==> Aligned(f.sites[i], f.HistoryOf(i))
  }

  lemma VisitKeepsHost(s: Site, h: seq<Event>, v: Visit)
    ensures VisitSite(s, h, v).site.host == s.host
  {
  }

  /** A visit to one site changes that site and the history of its host, nothing else. */
  lemma VisitOneEffect(f: Fleet, k: nat, v: Visit, i: nat)
    requires k < |f.sites| && i < |f.sites| && (i != k ==> f.sites[i].host != f.sites[k].host)
    ensures var f', visited := VisitOne(f, k, v), VisitSite(f.sites[k], f.HistoryOf(k), v);
      && f'.sites[i].host == f.sites[i].host
      && f'.sites[i] == (if i == k then visited.site else f.sites[i])
      && f'.HistoryOf(i) == (if i == k then f.HistoryOf(i) + visited.events else f.HistoryOf(i))
  {
    VisitKeepsHost(f.sites[k], f.HistoryOf(k), v);
  }

  /** Site i of `f'` is as in `f` before its visit of the pass, and as that visit leaves it afterwards. */
  ghost predicate VisitedOnce(f: Fleet, f': Fleet, i: nat, v: Visit, done: bool)
    requires |f'.sites| == |f.sites| && i < |f.sites|
  {
    var visited := VisitSite(f.sites[i], f.HistoryOf(i), v);
    && f'.sites[i].host == f.sites[i].host
    && f'.sites[i] == (if done then visited.site else f.sites[i])
    && f'.HistoryOf(i) == (if done then f.HistoryOf(i) + visited.events else f.HistoryOf(i))
  }

  lemma NotVisitedYet(f: Fleet, i: nat, v: Visit)
    requires i < |f.sites|
    ensures VisitedOnce(f, f, i, v, false)
  {
  }

  lemma OwnVisit(f: Fleet, before: Fleet, k: nat, v: Visit)
    requires |before.sites| == |f.sites| && k < |f.sites| && VisitedOnce(f, before, k, v, false)
    ensures VisitedOnce(f, VisitOne(before, k, v), k, v, true)
  {
    VisitOneEffect(before, k, v, k);
  }

  lemma OtherVisit(f: Fleet, before: Fleet, k: nat, v: Visit, i: nat, w: Visit, done: bool)
    requires |before.sites| == |f.sites| && k < |f.sites| && i < |f.sites|
    requires before.sites[i].host != before.sites[k].host && VisitedOnce(f, before, i, w, done)
    ensures VisitedOnce(f, VisitOne(before, k, v), i, w, done)
  {
    VisitOneEffect(before, k, v, i);
  }

  /** With distinct hosts the sites do not influence each other: a pass is one visit to each. */
  lemma {:induction false} SitesAreIndependent(f: Fleet, visits: seq<Visit>, n: nat, i: nat)
    requires n <= |f.sites| == |visits| && i < |f.sites| && DistinctHosts(f.sites)
    ensures VisitedOnce(f, PassTo(f, visits, n), i, visits[i], i < n)
  {
    if n == 0 {
      NotVisitedYet(f, i, visits[i]);
    } else {
      var k, before := n - 1, PassTo(f, visits, n - 1);
      SitesAreIndependent(f, visits, k, i);
      if i == k {
        OwnVisit(f, before, k, visits[k]);
      } else {
        SitesAreIndependent(f, visits, k, k);
        OtherVisit(f, before, k, visits[k], i, visits[i], i < k);
      }
    }
  }

  lemma PassKeepsAlignment(f: Fleet, visits: seq<Visit>, n: nat)
    requires n <= |f.sites| == |visits| && DistinctHosts(f.sites) && AllAligned(f)
    ensures DistinctHosts(PassTo(f, visits, n).sites) && AllAligned(PassTo(f, visits, n))
  {
    var f' := PassTo(f, visits, n);
    forall i | 0 <= i < |f.sites| ensures f'.sites[i].host == f.sites[i].host && Aligned(f'.sites[i], f'.HistoryOf(i)) {
      SitesAreIndependent(f, visits, n, i);
      VisitKeepsAligned(f.sites[i], f.HistoryOf(i), visits[i]);
    }
  }

  /** Whole runs: any number of passes. */
  function Passes(f: Fleet, passes: seq<seq<Visit>>): (r: Fleet)
    requires forall k :: 0 <= k < |passes| ==> |passes[k]| == |f.sites|
    ensures |r.sites| == |f.sites|
  {
    if passes == [] then f
    else PassTo(Passes(f, passes[..|passes| - 1]), passes[|passes| - 1], |f.sites|)
  }

  lemma {:induction false} RunsKeepAlignment(f: Fleet, passes: seq<seq<Visit>>)
    requires forall k :: 0 <= k < |passes| ==> |passes[k]| == |f.sites|
    requires DistinctHosts(f.sites) && AllAligned(f)
    ensures DistinctHosts(Passes(f, passes).sites) && AllAligned(Passes(f, passes))
  {
    if passes != [] {
      RunsKeepAlignment(f, passes[..|passes| - 1]);
      PassKeepsAlignment(Passes(f, passes[..|passes| - 1]), passes[|passes| - 1], |f.sites|);
    }
  }

  /** Sites as `addSite` leaves them. */
  ghost predicate NewlyAdded(sites: seq<Site>) {
    forall i :: 0 <= i < |sites| ==>
      sites[i] == NewSite(sites[i].host, sites[i].intervalSec, sites[i].lastChecked)
  }

  /** Newly added distinct sites, however many passes later: DOWN exactly when the breaker is not CLOSED. */
  lemma DownMeansBreakerInEveryRun(sites: seq<Site>, passes: seq<seq<Visit>>, i: nat)
    requires forall k :: 0 <= k < |passes| ==> |passes[k]| == |sites|
    requires DistinctHosts(sites) && i < |sites|
    requires NewlyAdded(sites)
    ensures var f := Passes(Fleet(sites, map[]), passes);
      HealthAfter(f.HistoryOf(i)) == DOWN <==> f.sites[i].breaker != Closed
  {
    var start := Fleet(sites, map[]);
    forall j | 0 <= j < |sites| ensures Aligned(sites[j], start.HistoryOf(j)) {
      NewSiteAligned(sites[j].host, sites[j].intervalSec, sites[j].lastChecked);
    }
    RunsKeepAlignment(start, passes);
    var f := Passes(start, passes);
    DownIffBreakerNotClosed(f.sites[i], f.HistoryOf(i));
  }

  // ---- Distinct hosts are necessary ----

  /** Newly added sites, all due at this pass, and every check fails. */
  ghost predicate AllFail(sites: seq<Site>, visits: seq<Visit>) {
    && |visits| == |sites|
    && NewlyAdded(sites)
    && (forall i :: 0 <= i < |sites| ==> visits[i].response.result != SuccessResult)
    && (forall i :: 0 <= i < |sites| ==> visits[i].now - sites[i].lastChecked >= Max(1, sites[i].intervalSec) * SECOND)
  }

  function Occurrences(sites: seq<Site>, host: Host, n: nat): nat
    requires n <= |sites|
  {
    if n == 0 then 0 else Occurrences(sites, host, n - 1) + if sites[n - 1].host == host then 1 else 0
  }

  function FailedOnce(s: Site, v: Visit): Site {
    s.(localFailures := 1, lastChecked := v.now)
  }

  lemma {:induction false} EachFailsOnce(sites: seq<Site>, visits: seq<Visit>, n: nat, i: nat)
    requires AllFail(sites, visits) && n <= |sites| && i < |sites|
    ensures PassTo(Fleet(sites, map[]), visits, n).sites[i]
         == if i < n then FailedOnce(sites[i], visits[i]) else sites[i]
  {
    if n > 0 {
      EachFailsOnce(sites, visits, n - 1, i);
      EachFailsOnce(sites, visits, n - 1, n - 1);
      FirstFailure(sites[n - 1], PassTo(Fleet(sites, map[]), visits, n - 1).HistoryOf(n - 1), visits[n - 1]);
    }
  }

  lemma {:induction false} FailuresAreShared(sites: seq<Site>, visits: seq<Visit>, n: nat, host: Host)
    requires AllFail(sites, visits) && n <= |sites|
    ensures TrailingFailures(HistoryIn(PassTo(Fleet(sites, map[]), visits, n).histories, host))
         == Occurrences(sites, host, n)
  {
    if n > 0 {
      FailuresAreShared(sites, visits, n - 1, host);
      NextFailureRecorded(sites, visits, n - 1, host);
    }
  }

  lemma NextFailureRecorded(sites: seq<Site>, visits: seq<Visit>, n: nat, host: Host)
    requires AllFail(sites, visits) && n < |sites|
    ensures TrailingFailures(HistoryIn(PassTo(Fleet(sites, map[]), visits, n + 1).histories, host))
         == TrailingFailures(HistoryIn(PassTo(Fleet(sites, map[]), visits, n).histories, host))
            + if sites[n].host == host then 1 else 0
  {
    EachFailsOnce(sites, visits, n, n);
    var f := PassTo(Fleet(sites, map[]), visits, n);
    FirstFailure(sites[n], f.HistoryOf(n), visits[n]);
    FailureRecorded(f, n, visits[n], host);
  }

  lemma FailureRecorded(f: Fleet, k: nat, v: Visit, host: Host)
    requires k < |f.sites| && v.response.result != SuccessResult
    requires VisitSite(f.sites[k], f.HistoryOf(k), v).events == [EventOf(v.response)]
    ensures TrailingFailures(HistoryIn(VisitOne(f, k, v).histories, host))
         == TrailingFailures(HistoryIn(f.histories, host)) + if f.sites[k].host == host then 1 else 0
  {
    SnocParts(f.HistoryOf(k), EventOf(v.response));
  }

  lemma FirstFailure(s: Site, h: seq<Event>, v: Visit)
    requires s == NewSite(s.host, s.intervalSec, s.lastChecked) && v.response.result != SuccessResult
    requires v.now - s.lastChecked >= Max(1, s.intervalSec) * SECOND
    ensures VisitSite(s, h, v) == Visited(FailedOnce(s, v), [EventOf(v.response)])
  {
    IntervalAtMost(s.intervalSec, HealthAfter(h));
  }

  lemma IntervalAtMost(interval: int, health: int)
    ensures EffectiveInterval(interval, health) * SECOND <= Max(1, interval) * SECOND
  {
  }

  lemma {:induction false} OccurrencesCount(sites: seq<Site>, host: Host, n: nat)
    requires n <= |sites|
    ensures Occurrences(sites, host, n) == 0 <==> forall i :: 0 <= i < n ==> sites[i].host != host
    ensures forall i, j :: 0 <= i < j < n && sites[i].host == host == sites[j].host ==> Occurrences(sites, host, n) >= 2
    ensures Occurrences(sites, host, n) >= 2 ==>
              exists i, j :: 0 <= i < j < n && sites[i].host == host && sites[j].host == host
  {
    if n > 0 {
      OccurrencesCount(sites, host, n - 1);
      if Occurrences(sites, host, n) >= 2 && Occurrences(sites, host, n - 1) < 2 {
        var i :| 0 <= i < n - 1 && sites[i].host == host;
        assert sites[i].host == host && sites[n - 1].host == host;
      }
    }
  }

  /** One pass in which every check fails keeps the counters aligned exactly when the hosts are distinct. */
  lemma OneFailingPassDecides(sites: seq<Site>, visits: seq<Visit>)
    requires AllFail(sites, visits)
    ensures AllAligned(PassTo(Fleet(sites, map[]), visits, |sites|)) <==> DistinctHosts(sites)
  {
    var start := Fleet(sites, map[]);
    var f := PassTo(start, visits, |sites|);
    if DistinctHosts(sites) {
      forall i | 0 <= i < |sites| ensures Aligned(sites[i], start.HistoryOf(i)) {
        NewSiteAligned(sites[i].host, sites[i].intervalSec, sites[i].lastChecked);
      }
      PassKeepsAlignment(start, visits, |sites|);
    } else {
      var i, j :| 0 <= i < j < |sites| && sites[i].host == sites[j].host;
      EachFailsOnce(sites, visits, |sites|, i);
      FailuresAreShared(sites, visits, |sites|, sites[i].host);
      OccurrencesCount(sites, sites[i].host, |sites|);
      assert !Aligned(f.sites[i], f.HistoryOf(i));
    }
  }

  /** A time at which every site is due. */
  function AllDue(sites: seq<Site>): int {
    if sites == [] then 0
    else
      var s := sites[|sites| - 1];
      Max(AllDue(sites[..|sites| - 1]), s.lastChecked + Max(1, s.intervalSec) * SECOND)
  }

  lemma {:induction false} AllDueIsLate(sites: seq<Site>, i: nat)
    requires i < |sites|
    ensures AllDue(sites) - sites[i].lastChecked >= Max(1, sites[i].intervalSec) * SECOND
  {
    if i < |sites| - 1 {
      AllDueIsLate(sites[..|sites| - 1], i);
    }
  }

  /** The pass at that time in which every check runs into its time limit. */
  function TimeoutPass(sites: seq<Site>): (visits: seq<Visit>)
    ensures |visits| == |sites|
    ensures forall i :: 0 <= i < |sites| ==> visits[i] == Visit(AllDue(sites), Response(Timeout, 0, 0, 0), 0)
  {
    seq(|sites|, i requires 0 <= i < |sites| => Visit(AllDue(sites), Response(Timeout, 0, 0, 0), 0))
  }

  ghost predicate AlwaysAligned(sites: seq<Site>) {
    forall passes: seq<seq<Visit>> | (forall k :: 0 <= k < |passes| ==> |passes[k]| == |sites|) ::
      AllAligned(Passes(Fleet(sites, map[]), passes))
  }

  /**
    * `addSite` does not reject duplicates. For newly added sites, distinct hosts are exactly what keeps the
    * counters of breaker and metrics aligned in every run.
    */
  lemma AlignmentNeedsDistinctHosts(sites: seq<Site>)
    requires NewlyAdded(sites)
    ensures AlwaysAligned(sites) <==> DistinctHosts(sites)
  {
    var start := Fleet(sites, map[]);
    if DistinctHosts(sites) {
      forall j | 0 <= j < |sites| ensures Aligned(sites[j], start.HistoryOf(j)) {
        NewSiteAligned(sites[j].host, sites[j].intervalSec, sites[j].lastChecked);
      }
      forall passes: seq<seq<Visit>> | forall k :: 0 <= k < |passes| ==> |passes[k]| == |sites|
        ensures AllAligned(Passes(start, passes))
      {
        RunsKeepAlignment(start, passes);
      }
    } else {
      var visits := TimeoutPass(sites);
      forall i | 0 <= i < |sites|
        ensures visits[i].now - sites[i].lastChecked >= Max(1, sites[i].intervalSec) * SECOND
      {
        AllDueIsLate(sites, i);
      }
      OneFailingPassDecides(sites, visits);
      assert [visits][..0] == [];
      assert Passes(start, [visits]) == PassTo(start, visits, |sites|);
    }
  }

  // ---- Cooldown ----

  lemma {:induction false} Pow2Grows(a: nat, b: nat)
    requires a <= b
    ensures Pow2(a) <= Pow2(b)
    decreases b
  {
    if a < b {
      Pow2Grows(a, b - 1);
    }
  }

  lemma Pow2At27()
    ensures Pow2(27) == 134217728 && Pow2(28) == 268435456
  {
    assert Pow2(5) == 32 && Pow2(10) == 1024;
    assert Pow2(15) == 32768;
    assert Pow2(20) == 1048576;
    assert Pow2(25) == 33554432;
  }

  /** The 32-bit back-off expression is defined exactly up to 27 attempts, and then it is the intended one. */
  lemma BackOffFitsExactlyUpTo27(attempts: nat)
    ensures 10 * Pow2(attempts) <= INT_MAX <==> attempts <= 27
    ensures attempts <= 27 ==> forall overflow :: Cooldown32(attempts, overflow) == BackOff(attempts)
  {
    Pow2At27();
    if attempts <= 27 {
      Pow2Grows(attempts, 27);
    } else {
      Pow2Grows(28, attempts);
    }
  }

  /** The cooldown a site shows: 10 s while CLOSED, otherwise the back-off for its number of attempts. */
  ghost predicate CooldownRight(s: Site) {
    && (s.breaker == Closed ==> s.cooldownSeconds == 10)
    && (s.breaker != Closed && s.openAttempts <= 27 ==> s.cooldownSeconds == BackOff(s.openAttempts))
  }

  lemma BackOffGrows(a: nat, b: nat)
    requires a <= b
    ensures BackOff(a) <= BackOff(b) && 10 <= BackOff(b)
  {
    Pow2Grows(a, b);
    Pow2Grows(0, b);
  }

  lemma ProbeKeepsCooldown(s: Site, v: Visit)
    requires CooldownRight(s) && s.localFailures < 3 && (s.breaker == Closed <==> s.openAttempts == 0)
    ensures var s' := AfterProbe(s, v);
      && CooldownRight(s')
      && (s'.openAttempts <= 27 && s'.breaker != Closed ==> s.cooldownSeconds <= s'.cooldownSeconds)
  {
    BackOffFitsExactlyUpTo27(s.openAttempts + 1);
    BackOffGrows(s.openAttempts, s.openAttempts + 1);
  }

  lemma VisitKeepsCooldown(s: Site, h: seq<Event>, v: Visit)
    requires Aligned(s, h) && CooldownRight(s)
    ensures CooldownRight(VisitSite(s, h, v).site)
    ensures var s' := VisitSite(s, h, v).site;
            s'.openAttempts <= 27 && s'.breaker != Closed ==> s.cooldownSeconds <= s'.cooldownSeconds
  {
    ProbeKeepsCooldown(if s.breaker == Open then s.(breaker := HalfOpen) else s, v);
  }

  /** From HALF_OPEN one failure is not enough to reopen: it takes three, as in CLOSED. */
  lemma ReopensExactlyOnThirdFailure(s: Site, h: seq<Event>, v: Visit)
    requires Aligned(s, h) && s.breaker != Open && Due(s, h, v.now)
    ensures VisitSite(s, h, v).site.breaker == Open <==> v.response.result != SuccessResult && s.localFailures == 2
    ensures v.response.result == SuccessResult ==>
              VisitSite(s, h, v).site == NewSite(s.host, s.intervalSec, v.now)
                .(breakerOpenTime := s.breakerOpenTime,
                  cooldownSeconds := if s.breaker == HalfOpen then 10 else s.cooldownSeconds)
  {
  }
}
