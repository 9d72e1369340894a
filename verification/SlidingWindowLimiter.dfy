/** src/security/sliding_window_limiter.cpp: a per-key log of admission times, pruned from the front. */
module SlidingWindowLimiter {
  import opened Addresses
  import opened TimeWindows

  const SIZE_T_RANGE: int := 0x1_0000_0000_0000_0000

  /** The value a signed `int` takes when it is compared with a `size_t`. */
  function ToSizeT(n: int): int {
    if n < 0 then n + SIZE_T_RANGE else n
  }

  datatype Arrival = Arrival(key: Ip, at: int)

  function TimesOf(history: seq<Arrival>, key: Ip): seq<int> {
    if history == [] then []
    else
      var front := TimesOf(history[..|history| - 1], key);
      var last := history[|history| - 1];
      if last.key == key then front + [last.at] else front
  }

  ghost predicate Chronological(history: seq<Arrival>) {
    forall i, j :: 0 <= i < j < |history| ==> history[i].at <= history[j].at
  }

  /**
    * The reference: scan all arrivals of one key and admit one when fewer than `limit` requests
    * were admitted in the `window` before it. Nothing is ever forgotten.
    */
  function Admitted(times: seq<int>, limit: int, window: int): seq<int> {
    if times == [] then []
    else
      var before := Admitted(times[..|times| - 1], limit, window);
      var now := times[|times| - 1];
      if Admits(before, now, limit, window) then before + [now] else before
  }

  predicate Admits(admitted: seq<int>, now: int, limit: int, window: int) {
    |Between(admitted, now - window, now)| < limit
  }

  lemma {:induction false} TimesBounded(history: seq<Arrival>, key: Ip, hi: int)
    requires Chronological(history)
    requires forall i :: 0 <= i < |history| ==> history[i].at <= hi
    ensures NonDecreasing(TimesOf(history, key)) && AllAtMost(TimesOf(history, key), hi)
  {
    if history != [] {
      TimesBounded(history[..|history| - 1], key, history[|history| - 1].at);
    }
  }

  lemma {:induction false} AdmittedBounded(times: seq<int>, limit: int, window: int)
    requires NonDecreasing(times)
    ensures NonDecreasing(Admitted(times, limit, window))
    ensures forall hi :: AllAtMost(times, hi) ==> AllAtMost(Admitted(times, limit, window), hi)
  {
    if times != [] {
      AdmittedBounded(times[..|times| - 1], limit, window);
      assert AllAtMost(times[..|times| - 1], times[|times| - 1]);
    }
  }

  lemma ChronologicalAppend(history: seq<Arrival>, a: Arrival)
    requires Chronological(history) && (history != [] ==> history[|history| - 1].at <= a.at)
    ensures Chronological(history + [a])
  {
  }

  /** The admission record of one key in a history that interleaves many. */
  function Record(history: seq<Arrival>, key: Ip, limit: int, window: int): seq<int> {
    Admitted(TimesOf(history, key), limit, window)
  }

  lemma {:induction false} OwnTimes(history: seq<Arrival>, key: Ip)
    ensures TimesOf(OnlyKey(history, key), key) == TimesOf(history, key)
  {
    if history != [] {
      OwnTimes(history[..|history| - 1], key);
      var own, last := OnlyKey(history[..|history| - 1], key), history[|history| - 1];
      assert (own + [last])[..|own|] == own;
    }
  }

  /** Interleaving other keys changes no answer: a key's record is the one of its own sub-stream. */
  lemma {:induction false} OwnSubstream(history: seq<Arrival>, key: Ip, limit: int, window: int)
    ensures Record(history, key, limit, window) == Record(OnlyKey(history, key), key, limit, window)
  {
    OwnTimes(history, key);
  }

  lemma RecordAppend(history: seq<Arrival>, a: Arrival, key: Ip, limit: int, window: int)
    ensures Record(history + [a], key, limit, window)
         == if key == a.key && Admits(Record(history, key, limit, window), a.at, limit, window)
            then Record(history, key, limit, window) + [a.at]
            else Record(history, key, limit, window)
  {
    assert (history + [a])[..|history|] == history;
    var times := TimesOf(history, key);
    assert (times + [a.at])[..|times|] == times;
  }

  /** Safety: no closed interval of length `window` ever holds more than `limit` admissions. */
  lemma {:induction false} WindowSafety(times: seq<int>, limit: int, window: int, lo: int)
    requires NonDecreasing(times) && limit >= 0
    ensures |Between(Admitted(times, limit, window), lo, lo + window)| <= limit
  {
    if times != [] {
      var before := Admitted(times[..|times| - 1], limit, window);
      var now := times[|times| - 1];
      WindowSafety(times[..|times| - 1], limit, window, lo);
      AdmittedBounded(times[..|times| - 1], limit, window);
      if lo <= now <= lo + window && Admits(before, now, limit, window) {
        assert AllAtMost(times[..|times| - 1], now);
        BetweenNarrower(before, lo, lo + window, now - window, now);
        assert (before + [now])[..|before|] == before;
      }
    }
  }

  /** A request is refused exactly when the window that ends with it already holds `limit` admissions. */
  lemma RefusedIffWindowFull(times: seq<int>, limit: int, window: int, now: int)
    requires NonDecreasing(times) && AllAtMost(times, now) && limit >= 0
    ensures !Admits(Admitted(times, limit, window), now, limit, window)
       <==> |Between(Admitted(times, limit, window), now - window, now)| == limit
  {
    WindowSafety(times, limit, window, now - window);
  }

  function OnlyKey(history: seq<Arrival>, key: Ip): seq<Arrival> {
    if history == [] then []
    else
      var front := OnlyKey(history[..|history| - 1], key);
      var last := history[|history| - 1];
      if last.key == key then front + [last] else front
  }

  /** `log` answers every query that starts at `horizon` or later as the whole `record` does. */
  ghost predicate Retains(log: seq<int>, record: seq<int>, horizon: int) {
    forall lo, hi :: horizon <= lo ==> Between(log, lo, hi) == Between(record, lo, hi)
  }

  lemma RetainsPushed(log: seq<int>, record: seq<int>, horizon: int, x: int)
    requires Retains(log, record, horizon)
    ensures Retains(log + [x], record + [x], horizon)
  {
    forall lo, hi | horizon <= lo ensures Between(log + [x], lo, hi) == Between(record + [x], lo, hi) {
      BetweenConcat(log, [x], lo, hi);
      BetweenConcat(record, [x], lo, hi);
    }
  }

  lemma RetainsPruned(record: seq<int>, horizon: int, now: int)
    requires AllAtMost(record, now)
    ensures Retains(Between(record, horizon, now), record, horizon)
  {
    forall lo, hi | horizon <= lo
      ensures Between(Between(record, horizon, now), lo, hi) == Between(record, lo, hi)
    {
      BetweenOfBetween(record, horizon, now, lo, hi);
    }
  }

  function LogOf(log: map<Ip, seq<int>>, key: Ip): seq<int> {
    if key in log then log[key] else []
  }

  /** What the limiter's table keeps of the full history: every log retains its key's record. */
  ghost predicate Summarises(log: map<Ip, seq<int>>, history: seq<Arrival>, limit: int, window: int) {
    && Chronological(history)
    && forall key :: KeyKept(LogOf(log, key), Record(history, key, limit, window), Clock(history), window)
  }

  ghost predicate KeyKept(log: seq<int>, record: seq<int>, clock: int, window: int) {
    NonDecreasing(log) && AllAtMost(log, clock) && Retains(log, record, clock - window)
  }

  /** The time of the latest call; the clock itself starts at 0. */
  ghost function Clock(history: seq<Arrival>): int {
    if history == [] then 0 else history[|history| - 1].at
  }

  lemma RecordAtMost(history: seq<Arrival>, key: Ip, limit: int, window: int, now: int)
    requires Chronological(history) && Clock(history) <= now
    ensures AllAtMost(Record(history, key, limit, window), now)
  {
    TimesBounded(history, key, now);
    AdmittedBounded(TimesOf(history, key), limit, window);
  }

  lemma AfterCall(log: map<Ip, seq<int>>, history: seq<Arrival>, limit: int, window: int,
                  ip: Ip, now: int, dq: seq<int>)
    requires Summarises(log, history, limit, window) && Clock(history) <= now
    requires KeyKept(dq, Record(history + [Arrival(ip, now)], ip, limit, window), now, window)
    ensures Summarises(log[ip := dq], history + [Arrival(ip, now)], limit, window)
  {
    var after := history + [Arrival(ip, now)];
    ChronologicalAppend(history, Arrival(ip, now));
    forall key ensures KeyKept(LogOf(log[ip := dq], key), Record(after, key, limit, window), now, window) {
      if key != ip {
        RecordAppend(history, Arrival(ip, now), key, limit, window);
        var log, record := LogOf(log, key), Record(history, key, limit, window);
        assert KeyKept(log, record, Clock(history), window);
        assert Retains(log, record, now - window);
      }
    }
  }

  class SlidingWindowLimiter {
    var requestLog: map<Ip, seq<int>>
    const maxRequests: int
    const windowMs: int
    // Every call made so far, in order.
    ghost var history: seq<Arrival>

    function Limit(): int {
      ToSizeT(maxRequests)
    }

    ghost function AdmittedTo(key: Ip): seq<int>
      reads this
    {
      Record(history, key, Limit(), windowMs)
    }

    ghost predicate Valid()
      reads this
    {
      && -0x8000_0000 <= maxRequests < 0x8000_0000
      && Summarises(requestLog, history, Limit(), windowMs)
    }

    constructor (maxReq: int := 100, window: int := 1000)
      requires -0x8000_0000 <= maxReq < 0x8000_0000
      ensures Valid() && history == [] && maxRequests == maxReq && windowMs == window
    {
      maxRequests, windowMs := maxReq, window;
      requestLog := map[];
      history := [];
    }

    method AllowRequest(ip: Ip, now: int) returns (allowed: bool)
      requires Valid()
      requires Clock(history) <= now
      modifies this
      ensures Valid()
      ensures history == old(history) + [Arrival(ip, now)]
      ensures allowed <==> |Between(old(AdmittedTo(ip)), now - windowMs, now)| < Limit()
      ensures AdmittedTo(ip) == if allowed then old(AdmittedTo(ip)) + [now] else old(AdmittedTo(ip))
      ensures 0 <= windowMs ==> LogOf(requestLog, ip) == Between(AdmittedTo(ip), now - windowMs, now)
      ensures windowMs < 0 ==> LogOf(requestLog, ip) == if allowed then [now] else []
      ensures ip in requestLog && forall key :: key != ip ==> LogOf(requestLog, key) == LogOf(old(requestLog), key)
    {
      LogBounded(ip, now);
      var dq := Prune(LogOf(requestLog, ip), now);
      PruneKeeps(ip, now, dq);
      if windowMs < 0 {
        NegativeWindowKeepsNothing(ip, now);
      }
      allowed := !(|dq| >= ToSizeT(maxRequests));
      PushKeeps(ip, now, dq);
      RecordAppend(history, Arrival(ip, now), ip, Limit(), windowMs);
      if allowed {
        dq := dq + [now];
      }
      AfterCall(requestLog, history, Limit(), windowMs, ip, now, dq);
      requestLog := requestLog[ip := dq];
      history := history + [Arrival(ip, now)];
    }

    /** The loop that pops expired stamps from the front of one key's log. */
    method Prune(log: seq<int>, now: int) returns (dq: seq<int>)
      requires NonDecreasing(log) && AllAtMost(log, now)
      ensures dq == Between(log, now - windowMs, now)
    {
      dq := log;
      ghost var k := 0;
      while dq != [] && now - dq[0] > windowMs
        invariant k <= |log| && dq == log[k..]
        invariant forall i :: 0 <= i < k ==> log[i] < now - windowMs
      {
        assert dq[0] == log[k];
        dq := dq[1..];
        k := k + 1;
      }
      BetweenIsTail(log, k, now - windowMs, now);
    }

    lemma LogBounded(ip: Ip, now: int)
      requires Valid() && Clock(history) <= now
      ensures NonDecreasing(LogOf(requestLog, ip)) && AllAtMost(LogOf(requestLog, ip), now)
    {
      assert KeyKept(LogOf(requestLog, ip), AdmittedTo(ip), Clock(history), windowMs);
    }

    lemma PruneKeeps(ip: Ip, now: int, dq: seq<int>)
      requires Valid() && Clock(history) <= now
      requires dq == Between(LogOf(requestLog, ip), now - windowMs, now)
      ensures dq == Between(AdmittedTo(ip), now - windowMs, now)
      ensures KeyKept(dq, AdmittedTo(ip), now, windowMs)
    {
      assert KeyKept(LogOf(requestLog, ip), AdmittedTo(ip), Clock(history), windowMs);
      RecordAtMost(history, ip, Limit(), windowMs, now);
      RetainsPruned(AdmittedTo(ip), now - windowMs, now);
      BetweenAtMost(LogOf(requestLog, ip), now - windowMs, now);
    }

    lemma NegativeWindowKeepsNothing(ip: Ip, now: int)
      requires windowMs < 0
      ensures Between(AdmittedTo(ip), now - windowMs, now) == []
    {
      BetweenNone(AdmittedTo(ip), now - windowMs, now);
    }

    lemma PushKeeps(ip: Ip, now: int, dq: seq<int>)
      requires dq == Between(AdmittedTo(ip), now - windowMs, now)
      requires KeyKept(dq, AdmittedTo(ip), now, windowMs)
      ensures KeyKept(dq + [now], AdmittedTo(ip) + [now], now, windowMs)
      ensures 0 <= windowMs ==> Between(AdmittedTo(ip) + [now], now - windowMs, now) == dq + [now]
    {
      RetainsPushed(dq, AdmittedTo(ip), now - windowMs, now);
      BetweenConcat(AdmittedTo(ip), [now], now - windowMs, now);
    }

    /** Whatever calls were made: no window of a key holds more admissions than the limit. */
    lemma WindowsBounded(key: Ip, lo: int)
      requires Valid()
      ensures |Between(AdmittedTo(key), lo, lo + windowMs)| <= Limit()
    {
      TimesBounded(history, key, Clock(history));
      WindowSafety(TimesOf(history, key), Limit(), windowMs, lo);
    }
  }
}
