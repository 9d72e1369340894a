/** How the per-second counter and the admission test built on it relate to the true request history. */
module RateTheorems {
  import opened Addresses
  import opened TimeWindows
  import opened IPTracker

  const MAX_REQUESTS_PER_SEC: nat := 50

  /** The counter never exceeds the number of requests of the last second, so a 429 is always deserved. */
  lemma NeverOverCounts(times: seq<int>, now: int)
    requires NonDecreasing(times) && AllAtMost(times, now)
    ensures Rate(times, now) <= |Between(times, now - SECOND + 1, now)|
  {
    RecentAreCounted(times, now - SECOND + 1, now, Rate(times, now));
  }

  lemma {:induction false} CountSplit(times: seq<int>, k: nat, lo: int, hi: int)
    requires k <= |times| && NonDecreasing(times) && AllAtMost(times, hi)
    requires forall i :: 0 <= i < k ==> times[i] < lo
    requires k < |times| ==> lo <= times[k]
    ensures |Between(times, lo, hi)| == |times| - k
  {
    assert forall i :: k <= i < |times| ==> times[k] <= times[i];
    BetweenIsTail(times, k, lo, hi);
  }

  /**
    * It is exact precisely when nothing of the last second lies outside the current window: the
    * request before the opener is a second old, and if the window has expired, so is the last one.
    */
  lemma ExactWhenWindowCoversSecond(times: seq<int>, now: int)
    requires NonDecreasing(times) && AllAtMost(times, now) && times != []
    ensures var o, last := Opener(times), times[|times| - 1];
      Rate(times, now) == |Between(times, now - SECOND + 1, now)| <==>
        if now - times[o] >= SECOND then now - last >= SECOND
        else o == 0 || now - times[o - 1] >= SECOND
  {
    var o, n := Opener(times), |times|;
    var lo := now - SECOND + 1;
    if now - times[o] >= SECOND {
      if now - times[n - 1] >= SECOND {
        CountSplit(times, n, lo, now);
      } else {
        RecentAreCounted(times, lo, now, 1);
      }
    } else if o == 0 || now - times[o - 1] >= SECOND {
      CountSplit(times, o, lo, now);
    } else {
      RecentAreCounted(times, lo, now, n - o + 1);
    }
  }

  // ---- Admission: record, then compare the rate with the limit ----

  /** One dispatched request of an address: when it was recorded, and when the rate was then read. */
  datatype Request = Request(at: int, askedAt: int)

  function Times(requests: seq<Request>): (times: seq<int>)
    ensures |times| == |requests|
    ensures forall i :: 0 <= i < |times| ==> times[i] == requests[i].at
  {
    seq(|requests|, i requires 0 <= i < |requests| => requests[i].at)
  }

  ghost predicate Ordered(requests: seq<Request>) {
    && (forall i :: 0 <= i < |requests| ==> requests[i].at <= requests[i].askedAt)
    && (forall i, j :: 0 <= i < j < |requests| ==> requests[i].askedAt <= requests[j].at)
  }

  predicate AdmittedAt(requests: seq<Request>, i: nat)
    requires i < |requests|
  {
    Rate(Times(requests[..i + 1]), requests[i].askedAt) <= MAX_REQUESTS_PER_SEC
  }

  /** The opener of request i's window, computed request by request. */
  function WindowOf(requests: seq<Request>, i: nat): (o: nat)
    requires i < |requests|
    ensures o <= i
  {
    if i == 0 then 0
    else
      var o := WindowOf(requests, i - 1);
      if requests[i].at - requests[o].at >= SECOND then i else o
  }

  /** The window of request i runs out between the two clock readings. */
  predicate Straddles(requests: seq<Request>, i: nat)
    requires i < |requests|
  {
    requests[i].askedAt - requests[WindowOf(requests, i)].at >= SECOND
  }

  lemma {:induction false} WindowOfIsOpener(requests: seq<Request>, i: nat)
    requires i < |requests|
    ensures Opener(Times(requests[..i + 1])) == WindowOf(requests, i)
  {
    if i > 0 {
      WindowOfIsOpener(requests, i - 1);
      assert Times(requests[..i + 1])[..i] == Times(requests[..i]);
    }
  }

  /** Admission in terms of the position in the window alone. */
  predicate InQuota(requests: seq<Request>, i: nat)
    requires i < |requests|
  {
    Straddles(requests, i) || i + 1 - WindowOf(requests, i) <= MAX_REQUESTS_PER_SEC
  }

  lemma AdmittedByPosition(requests: seq<Request>, i: nat)
    requires i < |requests|
    ensures AdmittedAt(requests, i) <==> InQuota(requests, i)
  {
    WindowOfIsOpener(requests, i);
  }

  function CountAdmitted(requests: seq<Request>, a: nat, b: nat): nat
    requires a <= b <= |requests|
  {
    if a == b then 0 else CountAdmitted(requests, a, b - 1) + if AdmittedAt(requests, b - 1) then 1 else 0
  }

  function CountInQuota(requests: seq<Request>, a: nat, b: nat): nat
    requires a <= b <= |requests|
  {
    if a == b then 0 else CountInQuota(requests, a, b - 1) + if InQuota(requests, b - 1) then 1 else 0
  }

  lemma {:induction false} SameCount(requests: seq<Request>, a: nat, b: nat)
    requires a <= b <= |requests|
    ensures CountAdmitted(requests, a, b) == CountInQuota(requests, a, b)
  {
    if a < b {
      SameCount(requests, a, b - 1);
      AdmittedByPosition(requests, b - 1);
    }
  }

  /** Successive windows start at least a second apart. */
  lemma {:induction false} WindowsApart(requests: seq<Request>, i: nat, j: nat)
    requires i <= j < |requests|
    ensures WindowOf(requests, i) <= WindowOf(requests, j)
    ensures WindowOf(requests, i) < WindowOf(requests, j) ==> i < WindowOf(requests, j)
    ensures WindowOf(requests, i) < WindowOf(requests, j) && Ordered(requests) ==>
              requests[WindowOf(requests, j)].at - requests[WindowOf(requests, i)].at >= SECOND
  {
    if i < j {
      WindowsApart(requests, i, j - 1);
    }
  }

  /** A request that straddles is the last of its window. */
  lemma StraddlerIsLast(requests: seq<Request>, i: nat)
    requires i + 1 < |requests| && Ordered(requests)
    ensures Straddles(requests, i) ==> WindowOf(requests, i + 1) == i + 1
  {
  }

  lemma {:induction false} QuotaOfWindow(requests: seq<Request>, o: nat, b: nat)
    requires o < b <= |requests| && Ordered(requests) && WindowOf(requests, b - 1) == o
    ensures CountInQuota(requests, o, b) ==
      if b - o <= MAX_REQUESTS_PER_SEC then b - o
      else MAX_REQUESTS_PER_SEC + if Straddles(requests, b - 1) then 1 else 0
    decreases b
  {
    if b - 1 > o {
      assert WindowOf(requests, b - 2) == o && !Straddles(requests, b - 2) by {
        WholeWindow(requests, b - 1, b - 2);
        StraddlerIsLast(requests, b - 2);
      }
      QuotaOfWindow(requests, o, b - 1);
    } else {
      assert CountInQuota(requests, o, o) == 0;
    }
  }

  /**
    * What a window admits, exactly: its first 50 requests, and after those only a last one whose rate
    * is read when the window is already over.
    */
  lemma OneWindowExactly(requests: seq<Request>, o: nat, b: nat)
    requires o < b <= |requests| && Ordered(requests) && WindowOf(requests, b - 1) == o
    ensures CountAdmitted(requests, o, b) ==
      if b - o <= MAX_REQUESTS_PER_SEC then b - o
      else MAX_REQUESTS_PER_SEC + if Straddles(requests, b - 1) then 1 else 0
  {
    SameCount(requests, o, b);
    QuotaOfWindow(requests, o, b);
  }

  lemma {:induction false} CountSplitAt(requests: seq<Request>, a: nat, m: nat, b: nat)
    requires a <= m <= b <= |requests|
    ensures CountInQuota(requests, a, b) == CountInQuota(requests, a, m) + CountInQuota(requests, m, b)
  {
    if m < b {
      CountSplitAt(requests, a, m, b - 1);
    }
  }

  lemma {:induction false} WholeWindow(requests: seq<Request>, i: nat, k: nat)
    requires i < |requests| && WindowOf(requests, i) <= k <= i
    ensures WindowOf(requests, k) == WindowOf(requests, i)
  {
    if k < i {
      WholeWindow(requests, i - 1, k);
    }
  }

  /** The opener of a window is admitted, so the requests after it have one admission less to share. */
  lemma OneWindowBound(requests: seq<Request>, o: nat, a: nat, b: nat)
    requires o <= a <= b <= |requests| && Ordered(requests)
    requires forall i :: a <= i < b ==> WindowOf(requests, i) == o
    ensures CountInQuota(requests, a, b)
         <= (if o < a then MAX_REQUESTS_PER_SEC - 1 else MAX_REQUESTS_PER_SEC)
            + if a < b && Straddles(requests, b - 1) then 1 else 0
  {
    if a < b {
      QuotaOfWindow(requests, o, b);
      CountSplitAt(requests, o, a, b);
      if o < a {
        WholeWindow(requests, b - 1, a - 1);
        QuotaOfWindow(requests, o, a);
      }
    } else {
      assert CountInQuota(requests, a, a) == 0;
    }
  }

  /** Requests recorded within less than a second belong to at most two windows. */
  lemma {:induction false} AtMostTwoWindows(requests: seq<Request>, a: nat, b: nat) returns (m: nat)
    requires a < b <= |requests| && Ordered(requests)
    requires requests[b - 1].at - requests[a].at < SECOND
    ensures a < m <= b
    ensures forall i :: a <= i < m ==> WindowOf(requests, i) == WindowOf(requests, a)
    ensures forall i :: m <= i < b ==> WindowOf(requests, i) == m
    decreases b
  {
    if b == a + 1 {
      m := b;
    } else {
      assert requests[b - 2].at <= requests[b - 1].at;
      m := AtMostTwoWindows(requests, a, b - 1);
      if m < b - 1 {
        assert WindowOf(requests, b - 2) == m;
        assert requests[a].at <= requests[m].at;
      } else if WindowOf(requests, b - 1) != WindowOf(requests, a) {
        assert WindowOf(requests, b - 2) == WindowOf(requests, a);
        m := b - 1;
      } else {
        m := b;
      }
    }
  }

  /**
    * Requests recorded within less than a second belong to at most two windows, and the first of two
    * was opened before them: 49 and 50 admissions, and one more for each window that ran out between
    * a record and its rate query.
    */
  lemma RangeBound(requests: seq<Request>, a: nat, b: nat)
    requires a <= b <= |requests| && Ordered(requests)
    requires a < b ==> requests[b - 1].at - requests[a].at < SECOND
    ensures CountInQuota(requests, a, b) <= SecondBound(false)
    ensures ReadsOnce(requests) ==> CountInQuota(requests, a, b) <= SecondBound(true)
  {
    if a < b {
      var m := AtMostTwoWindows(requests, a, b);
      if m < b {
        WindowsApart(requests, a, m);
        assert requests[m].at <= requests[b - 1].at by {
          AtGrows(requests, m, b - 1);
        }
      }
      OneWindowBound(requests, WindowOf(requests, a), a, m);
      OneWindowBound(requests, m, m, b);
      CountSplitAt(requests, a, m, b);
      forall i | a <= i < b && requests[i].askedAt == requests[i].at ensures !Straddles(requests, i) {
        InsideOwnWindow(requests, i);
      }
    }
  }

  lemma AtGrows(requests: seq<Request>, i: nat, j: nat)
    requires i <= j < |requests| && Ordered(requests)
    ensures requests[i].at <= requests[j].at
  {
  }

  /** Record and rate query of every request read the same time. */
  ghost predicate ReadsOnce(requests: seq<Request>) {
    forall i :: 0 <= i < |requests| ==> requests[i].askedAt == requests[i].at
  }

  /** The most that one second can admit. */
  function SecondBound(oneReading: bool): nat {
    if oneReading then 99 else 101
  }

  lemma InsideOwnWindow(requests: seq<Request>, i: nat)
    requires i < |requests|
    ensures requests[i].at - requests[WindowOf(requests, i)].at < SECOND
  {
  }

  /** When the admitted requests were recorded. */
  function AdmittedTimes(requests: seq<Request>, n: nat): seq<int>
    requires n <= |requests|
  {
    if n == 0 then []
    else AdmittedTimes(requests, n - 1) + if AdmittedAt(requests, n - 1) then [requests[n - 1].at] else []
  }

  lemma AdmittedTimesStep(requests: seq<Request>, n: nat, t: int)
    requires 0 < n <= |requests|
    ensures |Between(AdmittedTimes(requests, n), t, t + SECOND - 1)|
         == |Between(AdmittedTimes(requests, n - 1), t, t + SECOND - 1)|
            + if AdmittedAt(requests, n - 1) && t <= requests[n - 1].at < t + SECOND then 1 else 0
  {
    var x := requests[n - 1].at;
    BetweenConcat(AdmittedTimes(requests, n - 1), if AdmittedAt(requests, n - 1) then [x] else [], t, t + SECOND - 1);
    BetweenOne(x, t, t + SECOND - 1);
  }

  lemma {:induction false} NoneBefore(requests: seq<Request>, n: nat, t: int)
    requires n <= |requests| && forall i :: 0 <= i < n ==> requests[i].at < t
    ensures |Between(AdmittedTimes(requests, n), t, t + SECOND - 1)| == 0
  {
    if n > 0 {
      NoneBefore(requests, n - 1, t);
      AdmittedTimesStep(requests, n, t);
    }
  }

  lemma {:induction false} WithinIsRange(requests: seq<Request>, a: nat, n: nat, t: int)
    requires a <= n <= |requests|
    requires forall i :: 0 <= i < a ==> requests[i].at < t
    requires forall i :: a <= i < n ==> t <= requests[i].at < t + SECOND
    ensures |Between(AdmittedTimes(requests, n), t, t + SECOND - 1)| == CountAdmitted(requests, a, n)
  {
    if a == n {
      NoneBefore(requests, n, t);
    } else {
      WithinIsRange(requests, a, n - 1, t);
      AdmittedTimesStep(requests, n, t);
    }
  }

  lemma {:induction false} FirstSince(requests: seq<Request>, n: nat, t: int) returns (a: nat)
    requires n <= |requests| && Ordered(requests)
    ensures a <= n
    ensures forall i :: 0 <= i < a ==> requests[i].at < t
    ensures forall i :: a <= i < n ==> t <= requests[i].at
  {
    if n == 0 {
      a := 0;
    } else {
      a := FirstSince(requests, n - 1, t);
      if a == n - 1 && requests[n - 1].at < t {
        a := n;
      } else if a < n - 1 {
        assert requests[a].at <= requests[n - 1].at;
      }
    }
  }

  lemma BetweenOne(x: int, lo: int, hi: int)
    ensures Between([x], lo, hi) == (if lo <= x <= hi then [x] else []) && Between([], lo, hi) == []
  {
    assert [x][..0] == [];
  }

  function AdmittedIn(requests: seq<Request>, n: nat, t: int): nat
    requires n <= |requests|
  {
    |Between(AdmittedTimes(requests, n), t, t + SECOND - 1)|
  }

  lemma BoundWhenLastIsInside(requests: seq<Request>, n: nat, t: int)
    requires n <= |requests| && Ordered(requests)
    requires n > 0 ==> requests[n - 1].at < t + SECOND
    ensures AdmittedIn(requests, n, t) <= SecondBound(false)
    ensures ReadsOnce(requests) ==> AdmittedIn(requests, n, t) <= SecondBound(true)
  {
    var a := FirstSince(requests, n, t);
    forall i | a <= i < n ensures requests[i].at < t + SECOND {
      AtGrows(requests, i, n - 1);
    }
    WithinIsRange(requests, a, n, t);
    SameCount(requests, a, n);
    RangeBound(requests, a, n);
  }

  lemma {:induction false} BoundUpTo(requests: seq<Request>, n: nat, t: int)
    requires n <= |requests| && Ordered(requests)
    ensures AdmittedIn(requests, n, t) <= SecondBound(false)
    ensures ReadsOnce(requests) ==> AdmittedIn(requests, n, t) <= SecondBound(true)
  {
    if n > 0 && requests[n - 1].at >= t + SECOND {
      BoundUpTo(requests, n - 1, t);
      AdmittedTimesStep(requests, n, t);
    } else {
      BoundWhenLastIsInside(requests, n, t);
    }
  }

  /** `bound` limits the admitted requests of one address in every half-open second of every history. */
  ghost predicate LimitsEverySecond(bound: nat, oneReading: bool) {
    forall requests, t :: Ordered(requests) && (oneReading ==> ReadsOnce(requests)) ==>
      AdmittedIn(requests, |requests|, t) <= bound
  }

  /**
    * The two-window bound, and that it is the best one: a second admits up to 101 requests of an
    * address, and up to 99 when each request reads the clock once.
    */
  lemma TwoWindowBound(bound: nat, oneReading: bool)
    ensures LimitsEverySecond(bound, oneReading) <==> bound >= SecondBound(oneReading)
  {
    if bound >= SecondBound(oneReading) {
      forall requests, t | Ordered(requests) && (oneReading ==> ReadsOnce(requests))
        ensures AdmittedIn(requests, |requests|, t) <= bound
      {
        BoundUpTo(requests, |requests|, t);
      }
    } else {
      BusySecondAdmits(oneReading);
    }
  }

  /**
    * A history that reaches the bound: one request opens a window, 50 come just before it ends, 50
    * open the next one, and a last one comes towards its end. Without a single reading the last request
    * of each window asks for its rate when the window is over.
    */
  function Busy(i: nat, oneReading: bool): Request {
    var at :=
      if i == 0 then SECOND
      else if i <= 50 then 2 * SECOND - 1
      else if i <= 100 then 2 * SECOND
      else 3 * SECOND - 2;
    Request(at, if oneReading || (i != 50 && i != 101) then at else if i == 50 then 2 * SECOND else 3 * SECOND)
  }

  function BusySecond(oneReading: bool): (requests: seq<Request>)
    ensures |requests| == 102 && forall i :: 0 <= i < 102 ==> requests[i] == Busy(i, oneReading)
    ensures Ordered(requests) && (oneReading ==> ReadsOnce(requests))
  {
    seq(102, i requires 0 <= i < 102 => Busy(i, oneReading))
  }

  lemma {:induction false} BusyWindows(oneReading: bool, i: nat)
    requires i < 102
    ensures WindowOf(BusySecond(oneReading), i) == if i <= 50 then 0 else 51
  {
    if i > 0 {
      BusyWindows(oneReading, i - 1);
    }
  }

  lemma BusyCount(oneReading: bool)
    ensures CountInQuota(BusySecond(oneReading), 1, 102) == SecondBound(oneReading)
  {
    var requests := BusySecond(oneReading);
    BusyWindows(oneReading, 0);
    BusyWindows(oneReading, 50);
    BusyWindows(oneReading, 101);
    QuotaOfWindow(requests, 0, 1);
    QuotaOfWindow(requests, 0, 51);
    QuotaOfWindow(requests, 51, 102);
    CountSplitAt(requests, 0, 1, 51);
    CountSplitAt(requests, 1, 51, 102);
  }

  lemma BusySecondAdmits(oneReading: bool)
    ensures AdmittedIn(BusySecond(oneReading), 102, 2 * SECOND - 1) == SecondBound(oneReading)
  {
    BusyCount(oneReading);
    SameCount(BusySecond(oneReading), 1, 102);
    WithinIsRange(BusySecond(oneReading), 1, 102, 2 * SECOND - 1);
  }

  // ---- The requests behind the tracker's state ----

  function RequestsIn(requests: map<Ip, seq<Request>>, ip: Ip): seq<Request> {
    if ip in requests then requests[ip] else []
  }

  /** The requests of all addresses after one more has been checked. */
  function Checked(requests: map<Ip, seq<Request>>, ip: Ip, r: Request): map<Ip, seq<Request>> {
    requests[ip := RequestsIn(requests, ip) + [r]]
  }

  /** A request is refused when the whole history of its address says so. */
  predicate Refuses(requests: map<Ip, seq<Request>>, ip: Ip, r: Request) {
    var before := RequestsIn(requests, ip);
    !AdmittedAt(before + [r], |before|)
  }

  ghost predicate Tracked(history: map<Ip, seq<int>>, requests: map<Ip, seq<Request>>, clock: int, ip: Ip) {
    var rs := RequestsIn(requests, ip);
    && TimesIn(history, ip) == Times(rs) && Ordered(rs)
    && (rs != [] ==> rs[|rs| - 1].askedAt <= clock)
  }

  ghost predicate AllTracked(history: map<Ip, seq<int>>, requests: map<Ip, seq<Request>>, clock: int) {
    forall ip :: Tracked(history, requests, clock, ip)
  }

  lemma TrackNext(history: map<Ip, seq<int>>, requests: map<Ip, seq<Request>>, clock: int,
                  ip: Ip, at: int, askedAt: int)
    requires AllTracked(history, requests, clock) && clock <= at <= askedAt
    ensures AllTracked(history[ip := TimesIn(history, ip) + [at]],
                       requests[ip := RequestsIn(requests, ip) + [Request(at, askedAt)]], askedAt)
  {
    var history', requests' := history[ip := TimesIn(history, ip) + [at]],
                               requests[ip := RequestsIn(requests, ip) + [Request(at, askedAt)]];
    forall other ensures Tracked(history', requests', askedAt, other) {
      assert Tracked(history, requests, clock, other);
      if other == ip {
        OneMoreTracked(RequestsIn(requests, ip), clock, at, askedAt);
      }
    }
  }

  lemma OneMoreTracked(rs: seq<Request>, clock: int, at: int, askedAt: int)
    requires Ordered(rs) && (rs != [] ==> rs[|rs| - 1].askedAt <= clock) && clock <= at <= askedAt
    ensures Ordered(rs + [Request(at, askedAt)])
    ensures Times(rs + [Request(at, askedAt)]) == Times(rs) + [at]
  {
    forall i | 0 <= i < |rs| ensures rs[i].askedAt <= at {
      assert i < |rs| - 1 ==> rs[i].askedAt <= rs[|rs| - 1].at;
    }
  }

  lemma LastAdmission(rs: seq<Request>, at: int, askedAt: int)
    ensures AdmittedAt(rs + [Request(at, askedAt)], |rs|) <==> Rate(Times(rs) + [at], askedAt) <= MAX_REQUESTS_PER_SEC
  {
    var all := rs + [Request(at, askedAt)];
    assert all[..|rs| + 1] == all;
    assert Times(all) == Times(rs) + [at];
  }

  lemma TimesAtMost(rs: seq<Request>, clock: int)
    requires Ordered(rs) && (rs != [] ==> rs[|rs| - 1].askedAt <= clock)
    ensures NonDecreasing(Times(rs)) && AllAtMost(Times(rs), clock)
  {
    forall i | 0 <= i < |rs| ensures rs[i].at <= clock {
      assert rs[i].askedAt <= rs[|rs| - 1].askedAt || i == |rs| - 1;
    }
    forall i, j | 0 <= i < j < |rs| ensures rs[i].at <= rs[j].at {
      assert rs[i].askedAt <= rs[j].at;
    }
  }

  /** A refused request comes after more than 50 requests of its address within the last second. */
  lemma RefusalDeserved(requests: seq<Request>, i: nat)
    requires Ordered(requests) && i < |requests| && !AdmittedAt(requests, i)
    ensures var asked := requests[i].askedAt;
            |Between(Times(requests[..i + 1]), asked - SECOND + 1, asked)| > MAX_REQUESTS_PER_SEC
  {
    TimesAtMost(requests[..i + 1], requests[i].askedAt);
    NeverOverCounts(Times(requests[..i + 1]), requests[i].askedAt);
  }
}
