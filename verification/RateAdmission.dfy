/** The rate check of src/main.cpp: record the request with the tracker, then compare its rate with the limit. */
module RateAdmission {
  import opened Addresses
  import opened IPTracker
  import opened RateTheorems

  class RateGate {
    const tracker: IPTracker
    // The latest clock reading, and every request checked so far, per address.
    var clock: int
    ghost var requests: map<Ip, seq<Request>>

    ghost predicate Valid()
      reads this, tracker
    {
      tracker.Valid() && clock >= 0 && AllTracked(tracker.history, requests, clock)
    }

    constructor ()
      ensures Valid() && fresh(tracker) && requests == map[] && clock == 0
    {
      tracker := new IPTracker();
      requests, clock := map[], 0;
    }

    /** The two calls read the clock separately. */
    method Exceeds(ip: Ip, recordAt: int, askedAt: int) returns (refused: bool)
      requires Valid() && 0 < recordAt && clock <= recordAt <= askedAt
      modifies this, tracker
      ensures Valid() && clock == askedAt
      ensures requests == Checked(old(requests), ip, Request(recordAt, askedAt))
      ensures refused <==> Refuses(old(requests), ip, Request(recordAt, askedAt))
    {
      ghost var before := RequestsIn(requests, ip);
      assert ClockReady(ip, recordAt) by {
        Ready(ip, recordAt);
      }
      tracker.RecordRequest(ip, recordAt);
      var rate := tracker.GetCurrentRate(ip, askedAt);
      refused := rate > MAX_REQUESTS_PER_SEC;
      LastAdmission(before, recordAt, askedAt);
      TrackNext(old(tracker.history), requests, clock, ip, recordAt, askedAt);
      requests := requests[ip := before + [Request(recordAt, askedAt)]];
      clock := askedAt;
    }

    ghost predicate ClockReady(ip: Ip, now: int)
      reads this, tracker
    {
      tracker.ClockAt(ip, now) && tracker.TimesOf(ip) == Times(RequestsIn(requests, ip))
    }

    lemma Ready(ip: Ip, now: int)
      requires Valid() && 0 < now && clock <= now
      ensures ClockReady(ip, now)
    {
      assert Tracked(tracker.history, requests, clock, ip);
      TimesAtMost(RequestsIn(requests, ip), clock);
    }

    /** Whatever has been checked, no half-open second holds more than 101 admissions of an address. */
    lemma AdmissionsBounded(ip: Ip, t: int)
      requires Valid()
      ensures AdmittedIn(RequestsIn(requests, ip), |RequestsIn(requests, ip)|, t) <= 101
    {
      assert Tracked(tracker.history, requests, clock, ip);
      BoundUpTo(RequestsIn(requests, ip), |RequestsIn(requests, ip)|, t);
    }
  }
}
