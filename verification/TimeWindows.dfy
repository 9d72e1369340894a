/** Sequences of time stamps and the stamps that fall in a closed interval. */
module TimeWindows {

  /** Ticks of the steady clock in one second. */
  const SECOND: int := 1_000_000_000

  ghost predicate NonDecreasing(s: seq<int>) {
    forall i, j :: 0 <= i < j < |s| ==> s[i] <= s[j]
  }

  ghost predicate AllAtMost(s: seq<int>, hi: int) {
    forall i :: 0 <= i < |s| ==> s[i] <= hi
  }

  /** The stamps of `s` in [lo, hi], in order. */
  function Between(s: seq<int>, lo: int, hi: int): seq<int> {
    if s == [] then []
    else
      var front := Between(s[..|s| - 1], lo, hi);
      var last := s[|s| - 1];
      if lo <= last <= hi then front + [last] else front
  }

  lemma {:induction false} BetweenConcat(a: seq<int>, b: seq<int>, lo: int, hi: int)
    ensures Between(a + b, lo, hi) == Between(a, lo, hi) + Between(b, lo, hi)
    decreases |b|
  {
    if b == [] {
      assert a + b == a;
    } else {
      assert (a + b)[..|a + b| - 1] == a + b[..|b| - 1];
      BetweenConcat(a, b[..|b| - 1], lo, hi);
    }
  }

  lemma {:induction false} BetweenOfBetween(s: seq<int>, lo: int, hi: int, lo': int, hi': int)
    requires lo <= lo' && AllAtMost(s, hi)
    ensures Between(Between(s, lo, hi), lo', hi') == Between(s, lo', hi')
  {
    if s != [] {
      BetweenOfBetween(s[..|s| - 1], lo, hi, lo', hi');
      var front := Between(s[..|s| - 1], lo, hi);
      var last := s[|s| - 1];
      if lo <= last <= hi {
        assert (front + [last])[..|front|] == front;
      }
    }
  }

  lemma {:induction false} BetweenNarrower(s: seq<int>, lo: int, hi: int, lo': int, hi': int)
    requires forall i :: 0 <= i < |s| && lo <= s[i] <= hi ==> lo' <= s[i] <= hi'
    ensures |Between(s, lo, hi)| <= |Between(s, lo', hi')|
  {
    if s != [] {
      BetweenNarrower(s[..|s| - 1], lo, hi, lo', hi');
    }
  }

  lemma {:induction false} BetweenAtMost(s: seq<int>, lo: int, hi: int)
    ensures AllAtMost(Between(s, lo, hi), hi)
    ensures NonDecreasing(s) ==> NonDecreasing(Between(s, lo, hi))
    ensures forall x :: x in Between(s, lo, hi) ==> x in s
  {
    if s != [] {
      BetweenAtMost(s[..|s| - 1], lo, hi);
      var front := Between(s[..|s| - 1], lo, hi);
      assert forall i :: 0 <= i < |front| ==> front[i] in s[..|s| - 1];
    }
  }

  lemma {:induction false} BetweenNoLonger(s: seq<int>, lo: int, hi: int)
    ensures |Between(s, lo, hi)| <= |s|
  {
    if s != [] {
      BetweenNoLonger(s[..|s| - 1], lo, hi);
    }
  }

  lemma {:induction false} BetweenAll(s: seq<int>, lo: int, hi: int)
    requires forall i :: 0 <= i < |s| ==> lo <= s[i] <= hi
    ensures Between(s, lo, hi) == s
  {
    if s != [] {
      BetweenAll(s[..|s| - 1], lo, hi);
    }
  }

  lemma {:induction false} BetweenNone(s: seq<int>, lo: int, hi: int)
    requires forall i :: 0 <= i < |s| ==> !(lo <= s[i] <= hi)
    ensures Between(s, lo, hi) == []
  {
    if s != [] {
      BetweenNone(s[..|s| - 1], lo, hi);
    }
  }

  /** In a non-decreasing sequence, the stamps since `lo` are a tail of it. */
  lemma BetweenIsTail(s: seq<int>, k: nat, lo: int, hi: int)
    requires k <= |s| && AllAtMost(s, hi)
    requires forall i :: 0 <= i < k ==> s[i] < lo
    requires forall i :: k <= i < |s| ==> lo <= s[i]
    ensures Between(s, lo, hi) == s[k..]
  {
    assert s == s[..k] + s[k..];
    BetweenConcat(s[..k], s[k..], lo, hi);
    BetweenNone(s[..k], lo, hi);
    BetweenAll(s[k..], lo, hi);
  }

  /** If at least `n` stamps are since `lo`, then the last `n` of them are. */
  lemma {:induction false} LastAreRecent(s: seq<int>, lo: int, hi: int, n: nat)
    requires NonDecreasing(s) && n <= |Between(s, lo, hi)|
    ensures n <= |s|
    ensures n > 0 ==> lo <= s[|s| - n]
  {
    if n > 0 {
      var front := s[..|s| - 1];
      LastAreRecent(front, lo, hi, n - 1);
      if n == 1 {
        BetweenAtMost(s, lo, hi);
        var x := Between(s, lo, hi)[0];
        BetweenLowerBound(s, lo, hi);
        assert x in s;
      }
    }
  }

  /** The converse: if the last `n` stamps are all since `lo`, they are all counted. */
  lemma {:induction false} RecentAreCounted(s: seq<int>, lo: int, hi: int, n: nat)
    requires NonDecreasing(s) && AllAtMost(s, hi) && n <= |s|
    requires n > 0 ==> lo <= s[|s| - n]
    ensures n <= |Between(s, lo, hi)|
  {
    if n > 0 {
      var front := s[..|s| - 1];
      assert n > 1 ==> front[|front| - (n - 1)] == s[|s| - n];
      RecentAreCounted(front, lo, hi, n - 1);
    }
  }

  lemma {:induction false} BetweenLowerBound(s: seq<int>, lo: int, hi: int)
    ensures forall x :: x in Between(s, lo, hi) ==> lo <= x <= hi
  {
    if s != [] {
      BetweenLowerBound(s[..|s| - 1], lo, hi);
    }
  }
}
