/** src/ip_tracking/IPTracker.cpp: a request counter per address that restarts after each second. */
module IPTracker {
  import opened Addresses
  import opened TimeWindows

  datatype PerIPStats = PerIPStats(totalRequests: nat, requestsThisWindow: nat, windowStart: int)

  const FRESH: PerIPStats := PerIPStats(0, 0, 0)

  /**
    * The request that opened the current window: the latest one that came a second or more after the
    * opener before it.
    */
  function Opener(times: seq<int>): (o: nat)
    requires times != []
    ensures o < |times|
  {
    if |times| == 1 then 0
    else
      var o := Opener(times[..|times| - 1]);
      if times[|times| - 1] - times[o] >= SECOND then |times| - 1 else o
  }

  /** What the tracker has to hold after requests at these times. */
  function StatsOf(times: seq<int>): PerIPStats {
    if times == [] then FRESH
    else PerIPStats(|times|, |times| - Opener(times), times[Opener(times)])
  }

  function Rate(times: seq<int>, now: int): nat {
    if times == [] || now - times[Opener(times)] >= SECOND then 0 else |times| - Opener(times)
  }

  function TimesIn(history: map<Ip, seq<int>>, ip: Ip): seq<int> {
    if ip in history then history[ip] else []
  }

  class IPTracker {
    var ipStats: map<Ip, PerIPStats>
    // When each address's requests were recorded.
    ghost var history: map<Ip, seq<int>>

    ghost function TimesOf(ip: Ip): seq<int>
      reads this
    {
      TimesIn(history, ip)
    }

    ghost predicate Valid()
      reads this
    {
      && ipStats.Keys == history.Keys
      && forall ip :: ip in history ==>
           && history[ip] != [] && ipStats[ip] == StatsOf(history[ip])
           && NonDecreasing(history[ip]) && history[ip][0] > 0
    }

    /** The steady clock is positive and never runs backwards. */
    ghost predicate ClockAt(ip: Ip, now: int)
      reads this
    {
      && now > 0
      && (TimesOf(ip) != [] ==> TimesOf(ip)[|TimesOf(ip)| - 1] <= now)
    }

    constructor ()
      ensures Valid() && history == map[]
    {
      ipStats, history := map[], map[];
    }

    method RecordRequest(ip: Ip, now: int)
      requires Valid() && ClockAt(ip, now)
      modifies this
      ensures Valid()
      ensures history == old(history)[ip := old(TimesOf(ip)) + [now]]
    {
      var stats := if ip in ipStats then ipStats[ip] else FRESH;
      ghost var times := TimesOf(ip);
      if stats.windowStart == 0 {
        stats := stats.(windowStart := now);
      }
      var elapsed := (now - stats.windowStart) / SECOND;
      if elapsed >= 1 {
        stats := stats.(requestsThisWindow := 0);
        stats := stats.(windowStart := now);
      }
      stats := stats.(totalRequests := stats.totalRequests + 1);
      stats := stats.(requestsThisWindow := stats.requestsThisWindow + 1);
      OneMoreRequest(times, now);
      ipStats := ipStats[ip := stats];
      history := history[ip := times + [now]];
    }

    method GetTotalRequests(ip: Ip) returns (total: nat)
      requires Valid()
      ensures total == |TimesOf(ip)|
    {
      if ip !in ipStats {
        return 0;
      }
      total := ipStats[ip].totalRequests;
    }

    method GetCurrentRate(ip: Ip, now: int) returns (rate: nat)
      requires Valid() && ClockAt(ip, now)
      ensures rate == Rate(TimesOf(ip), now)
    {
      if ip !in ipStats {
        return 0;
      }
      var stats := ipStats[ip];
      assert stats.windowStart <= now;
      var elapsed := (now - stats.windowStart) / SECOND;
      if elapsed >= 1 {
        return 0;
      }
      rate := stats.requestsThisWindow;
    }
  }

  lemma OneMoreRequest(times: seq<int>, now: int)
    requires NonDecreasing(times) && (times != [] ==> times[0] > 0 && times[|times| - 1] <= now)
    ensures NonDecreasing(times + [now])
    ensures StatsOf(times + [now]) ==
      if times == [] then PerIPStats(1, 1, now)
      else if now - times[Opener(times)] >= SECOND then PerIPStats(|times| + 1, 1, now)
      else PerIPStats(|times| + 1, |times| - Opener(times) + 1, times[Opener(times)])
    ensures times != [] ==> 0 < times[Opener(times)] <= now
  {
    if times != [] {
      OpenerPush(times, now);
      assert 0 < times[Opener(times)] <= now by {
        StartWithin(times, Opener(times));
      }
    }
    PushOrdered(times, now);
  }

  lemma PushOrdered(times: seq<int>, now: int)
    requires NonDecreasing(times) && (times != [] ==> times[|times| - 1] <= now)
    ensures NonDecreasing(times + [now])
  {
  }

  lemma StartWithin(times: seq<int>, o: nat)
    requires NonDecreasing(times) && o < |times|
    ensures times[0] <= times[o] <= times[|times| - 1]
  {
  }

  lemma OpenerPush(times: seq<int>, now: int)
    requires times != []
    ensures Opener(times + [now]) == if now - times[Opener(times)] >= SECOND then |times| else Opener(times)
  {
    assert (times + [now])[..|times|] == times;
  }
}
