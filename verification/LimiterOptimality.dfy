/** What the sliding-window rule achieves over whole arrival sequences. */
module LimiterOptimality {
  import opened TimeWindows
  import opened SlidingWindowLimiter

  /** The arrivals some other policy admits: `choice[i]` says whether it takes arrival i. */
  function Chosen(times: seq<int>, choice: seq<bool>): seq<int>
    requires |choice| == |times|
  {
    if times == [] then []
    else
      var front := Chosen(times[..|times| - 1], choice[..|times| - 1]);
      if choice[|times| - 1] then front + [times[|times| - 1]] else front
  }

  /** A policy respects the limit when no closed interval of length `window` exceeds it. */
  ghost predicate RespectsLimit(admitted: seq<int>, limit: int, window: int) {
    forall lo, hi :: hi == lo + window ==> |Between(admitted, lo, hi)| <= limit
  }

  lemma {:induction false} ChosenBounded(times: seq<int>, choice: seq<bool>)
    requires NonDecreasing(times) && |choice| == |times|
    ensures NonDecreasing(Chosen(times, choice))
    ensures times != [] ==> AllAtMost(Chosen(times, choice), times[|times| - 1])
  {
    if times != [] {
      ChosenBounded(times[..|times| - 1], choice[..|times| - 1]);
    }
  }

  lemma PrefixRespectsLimit(front: seq<int>, last: int, limit: int, window: int)
    requires RespectsLimit(front + [last], limit, window)
    ensures RespectsLimit(front, limit, window)
  {
    forall lo, hi | hi == lo + window ensures |Between(front, lo, hi)| <= limit {
      BetweenConcat(front, [last], lo, hi);
    }
  }

  /** `greedy` is never behind `other`: it has as many admissions, each no later than its counterpart. */
  ghost predicate Ahead(greedy: seq<int>, other: seq<int>) {
    && |other| <= |greedy|
    && forall k :: 0 <= k < |other| ==> greedy[k] <= other[k]
  }

  /** If the rule is level with `other` and refuses, then `other` cannot take the arrival either. */
  lemma NoRoomForOther(greedy: seq<int>, other: seq<int>, now: int, limit: int, window: int)
    requires 0 <= limit && 0 <= window
    requires NonDecreasing(greedy) && NonDecreasing(other) && AllAtMost(other, now)
    requires Ahead(greedy, other) && |greedy| == |other|
    requires !Admits(greedy, now, limit, window)
    ensures !RespectsLimit(other + [now], limit, window)
  {
    LastAreRecent(greedy, now - window, now, limit);
    if limit > 0 {
      assert greedy[|greedy| - limit] <= other[|other| - limit];
    }
    RecentAreCounted(other, now - window, now, limit);
    BetweenConcat(other, [now], now - window, now);
    assert |Between(other + [now], now - window, now)| > limit;
  }

  /** The exchange argument, over every prefix of the arrivals. */
  lemma {:induction false} StaysAhead(times: seq<int>, choice: seq<bool>, limit: int, window: int)
    requires NonDecreasing(times) && |choice| == |times|
    requires 0 <= limit && 0 <= window
    requires RespectsLimit(Chosen(times, choice), limit, window)
    ensures Ahead(Admitted(times, limit, window), Chosen(times, choice))
  {
    if times != [] {
      var now := times[|times| - 1];
      var earlier, choices := times[..|times| - 1], choice[..|times| - 1];
      var greedy, other := Admitted(earlier, limit, window), Chosen(earlier, choices);
      if choice[|times| - 1] {
        PrefixRespectsLimit(other, now, limit, window);
      }
      StaysAhead(earlier, choices, limit, window);
      AdmittedBounded(earlier, limit, window);
      ChosenBounded(times, choice);
      ChosenBounded(earlier, choices);
      assert AllAtMost(earlier, now);
      if choice[|times| - 1] && |greedy| == |other| && !Admits(greedy, now, limit, window) {
        assert Chosen(times, choice) == other + [now];
        assert AllAtMost(other, now) by {
          forall i | 0 <= i < |other| ensures other[i] <= now {
            assert (other + [now])[i] <= now;
          }
        }
        NoRoomForOther(greedy, other, now, limit, window);
      }
    }
  }

  /**
    * Optimality: on every prefix of every arrival sequence the limiter admits at least as many
    * requests as any policy that respects the limit. It can fail only for a negative window with
    * limit 0, where the limiter refuses everything although no interval constrains anybody.
    */
  ghost predicate Optimal(limit: int, window: int) {
    forall times, choice | NonDecreasing(times) && |choice| == |times| ::
      RespectsLimit(Chosen(times, choice), limit, window) ==>
      |Chosen(times, choice)| <= |Admitted(times, limit, window)|
  }

  lemma OptimalExactlyWhen(limit: int, window: int)
    requires 0 <= limit
    ensures Optimal(limit, window) <==> 0 <= window || 0 < limit
  {
    if 0 <= window || 0 < limit {
      forall times, choice | NonDecreasing(times) && |choice| == |times|
                          && RespectsLimit(Chosen(times, choice), limit, window)
        ensures |Chosen(times, choice)| <= |Admitted(times, limit, window)|
      {
        if 0 <= window {
          StaysAhead(times, choice, limit, window);
        } else {
          EmptyWindowAdmitsAll(times, limit, window);
          ChosenNoLonger(times, choice);
        }
      }
    } else {
      RefusesAll([0], window);
      assert RespectsLimit(Chosen([0], [true]), limit, window);
    }
  }

  lemma RefusesAll(times: seq<int>, window: int)
    requires |times| == 1 && window < 0
    ensures Admitted(times, 0, window) == []
    ensures Chosen(times, [true]) == times && RespectsLimit(times, 0, window)
  {
    assert times[..0] == [];
    forall lo, hi | hi == lo + window ensures |Between(times, lo, hi)| <= 0 {
      BetweenNone(times, lo, hi);
    }
  }

  lemma {:induction false} EmptyWindowAdmitsAll(times: seq<int>, limit: int, window: int)
    requires window < 0 < limit
    ensures Admitted(times, limit, window) == times
  {
    if times != [] {
      EmptyWindowAdmitsAll(times[..|times| - 1], limit, window);
      BetweenNone(times[..|times| - 1], times[|times| - 1] - window, times[|times| - 1]);
    }
  }

  lemma {:induction false} ChosenNoLonger(times: seq<int>, choice: seq<bool>)
    requires |choice| == |times|
    ensures |Chosen(times, choice)| <= |times|
  {
    if times != [] {
      ChosenNoLonger(times[..|times| - 1], choice[..|times| - 1]);
    }
  }

  lemma {:induction false} HugeLimitAdmitsAll(times: seq<int>, limit: int, window: int)
    requires |times| <= limit
    ensures Admitted(times, limit, window) == times
  {
    if times != [] {
      HugeLimitAdmitsAll(times[..|times| - 1], limit, window);
      BetweenNoLonger(times[..|times| - 1], times[|times| - 1] - window, times[|times| - 1]);
    }
  }

  /**
    * The configured number bounds every window exactly when it is not negative. A negative one is
    * compared as a huge unsigned number, so the limiter never refuses in practice.
    */
  lemma NegativeLimitNeverRefuses(maxRequests: int, times: seq<int>, window: int)
    requires -0x8000_0000 <= maxRequests < 0x8000_0000
    requires NonDecreasing(times) && |times| <= SIZE_T_RANGE / 2
    ensures 0 <= maxRequests ==> RespectsLimit(Admitted(times, ToSizeT(maxRequests), window), maxRequests, window)
    ensures maxRequests < 0 ==> Admitted(times, ToSizeT(maxRequests), window) == times
  {
    if 0 <= maxRequests {
      forall lo, hi | hi == lo + window
        ensures |Between(Admitted(times, maxRequests, window), lo, hi)| <= maxRequests
      {
        WindowSafety(times, maxRequests, window, lo);
      }
    } else {
      HugeLimitAdmitsAll(times, ToSizeT(maxRequests), window);
    }
  }
}
