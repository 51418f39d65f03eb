/**
 * The smoothing window: the polls of the last `interval` seconds and their floor average
 * (`_populate_polls_within_interval` and `_get_smoothed_heartrate` in pagmon/__main__.py).
 */
module Smoothing {

  /** One entry of the window: the monotonic time it was captured at and the raw rate. */
  datatype Poll = Poll(capturedAt: real, heartRate: int)

  /** An entry survives eviction at time `now` when its age does not exceed the interval. */
  predicate Fresh(p: Poll, now: real, interval: real)
  {
    now - p.capturedAt <= interval
  }

  /** The entries of `polls` that survive eviction at `now`, in their original order. */
  function Retained(polls: seq<Poll>, now: real, interval: real): (r: seq<Poll>)
    ensures |r| <= |polls|
    ensures forall p :: p in r <==> p in polls && Fresh(p, now, interval)
  {
    if polls == [] then []
    else (if Fresh(polls[0], now, interval) then [polls[0]] else []) + Retained(polls[1..], now, interval)
  }

  /**
   * Eviction keeps every fresh entry as often as it occurs in the window, duplicates included,
   * and drops every stale one.
   */
  lemma {:induction false} RetainedCounts(polls: seq<Poll>, now: real, interval: real)
    ensures forall p :: multiset(Retained(polls, now, interval))[p]
                        == if Fresh(p, now, interval) then multiset(polls)[p] else 0
  {
    if polls != [] {
      RetainedCounts(polls[1..], now, interval);
      assert polls == [polls[0]] + polls[1..];
    }
  }

  /** The window after one poll: stale entries evicted, then the new sample appended. */
  function Populated(polls: seq<Poll>, heartRate: int, now: real, interval: real): (r: seq<Poll>)
    ensures |r| > 0 && r[|r| - 1] == Poll(now, heartRate)
    ensures forall i :: 0 <= i < |r| - 1 ==> Fresh(r[i], now, interval)
    ensures interval >= 0.0 ==> forall i :: 0 <= i < |r| ==> Fresh(r[i], now, interval)
    ensures IsSubsequence(r[..|r| - 1], polls)
  {
    var kept := Retained(polls, now, interval);
    assert forall i :: 0 <= i < |kept| ==> kept[i] in kept;
    RetainedIsSubsequence(polls, now, interval);
    assert (kept + [Poll(now, heartRate)])[..|kept|] == kept;
    kept + [Poll(now, heartRate)]
  }

  /**
   * Before the new sample, the updated window holds exactly the old window's fresh entries, each
   * as often as before and in the same order, and no stale one.
   */
  lemma PopulatedKeepsFresh(polls: seq<Poll>, heartRate: int, now: real, interval: real)
    ensures var r := Populated(polls, heartRate, now, interval);
      && r[..|r| - 1] == Retained(polls, now, interval)
      && forall p :: multiset(r[..|r| - 1])[p] == if Fresh(p, now, interval) then multiset(polls)[p] else 0
  {
    var kept := Retained(polls, now, interval);
    assert (kept + [Poll(now, heartRate)])[..|kept|] == kept;
    RetainedCounts(polls, now, interval);
  }

  /** `sub` is `s` with some entries dropped and the rest kept in order. */
  predicate IsSubsequence(sub: seq<Poll>, s: seq<Poll>)
    decreases |s|
  {
    if sub == [] then true
    else if s == [] then false
    else if sub[0] == s[0] then IsSubsequence(sub[1..], s[1..])
    else IsSubsequence(sub, s[1..])
  }

  /** Eviction never reorders, duplicates or alters an entry. */
  lemma {:induction false} RetainedIsSubsequence(polls: seq<Poll>, now: real, interval: real)
    ensures IsSubsequence(Retained(polls, now, interval), polls)
  {
    if polls != [] {
      var rest := Retained(polls[1..], now, interval);
      RetainedIsSubsequence(polls[1..], now, interval);
      if Fresh(polls[0], now, interval) {
        assert ([polls[0]] + rest)[1..] == rest;
      } else {
        assert Retained(polls, now, interval) == rest;
        SubsequenceOfTail(rest, polls);
      }
    }
  }

  /** An entry in front of `s` does not stop `sub` from being a subsequence. */
  lemma {:induction false} SubsequenceOfTail(sub: seq<Poll>, s: seq<Poll>)
    requires s != [] && IsSubsequence(sub, s[1..])
    ensures IsSubsequence(sub, s)
    decreases |s|, 0
  {
    if sub != [] && sub[0] == s[0] {
      SubsequenceDropFirst(sub, s[1..]);
    }
  }

  /** Dropping the first entry of a subsequence keeps it a subsequence. */
  lemma {:induction false} SubsequenceDropFirst(sub: seq<Poll>, s: seq<Poll>)
    requires sub != [] && IsSubsequence(sub, s)
    ensures IsSubsequence(sub[1..], s)
    decreases |s|, 1
  {
    if sub[0] != s[0] {
      SubsequenceDropFirst(sub, s[1..]);
    }
    SubsequenceOfTail(sub[1..], s);
  }

  /** When nothing is stale, eviction leaves the window exactly as it was. */
  lemma {:induction false} RetainedAllFresh(polls: seq<Poll>, now: real, interval: real)
    requires forall i :: 0 <= i < |polls| ==> Fresh(polls[i], now, interval)
    ensures Retained(polls, now, interval) == polls
  {
    if polls != [] {
      RetainedAllFresh(polls[1..], now, interval);
      assert [polls[0]] + polls[1..] == polls;
    }
  }

  /** When every entry is stale, eviction empties the window. */
  lemma {:induction false} RetainedNoneFresh(polls: seq<Poll>, now: real, interval: real)
    requires forall i :: 0 <= i < |polls| ==> !Fresh(polls[i], now, interval)
    ensures Retained(polls, now, interval) == []
  {
    if polls != [] {
      RetainedNoneFresh(polls[1..], now, interval);
    }
  }

  function Sum(polls: seq<Poll>): int
  {
    if polls == [] then 0 else polls[0].heartRate + Sum(polls[1..])
  }

  function MinRate(polls: seq<Poll>): (m: int)
    requires |polls| > 0
    ensures forall i :: 0 <= i < |polls| ==> m <= polls[i].heartRate
    ensures exists i :: 0 <= i < |polls| && polls[i].heartRate == m
  {
    if |polls| == 1 then polls[0].heartRate
    else
      var rest := MinRate(polls[1..]);
      assert forall i :: 1 <= i < |polls| ==> polls[i] == polls[1..][i - 1];
      if polls[0].heartRate <= rest then polls[0].heartRate else rest
  }

  function MaxRate(polls: seq<Poll>): (m: int)
    requires |polls| > 0
    ensures forall i :: 0 <= i < |polls| ==> polls[i].heartRate <= m
    ensures exists i :: 0 <= i < |polls| && polls[i].heartRate == m
  {
    if |polls| == 1 then polls[0].heartRate
    else
      var rest := MaxRate(polls[1..]);
      assert forall i :: 1 <= i < |polls| ==> polls[i] == polls[1..][i - 1];
      if polls[0].heartRate >= rest then polls[0].heartRate else rest
  }

  lemma {:induction false} SumBounds(polls: seq<Poll>, lo: int, hi: int)
    requires forall i :: 0 <= i < |polls| ==> lo <= polls[i].heartRate <= hi
    ensures |polls| * lo <= Sum(polls) <= |polls| * hi
  {
    if polls != [] {
      assert forall i :: 0 <= i < |polls| - 1 ==> polls[1..][i] == polls[i + 1];
      SumBounds(polls[1..], lo, hi);
    }
  }

  /** The smoothed rate: Python's `sum // len` over the window, 0 for an empty window. */
  function SmoothedHeartRate(polls: seq<Poll>): int
  {
    if |polls| == 0 then 0 else Sum(polls) / |polls|
  }

  /**
   * The smoothed rate is the floor of the mean of the window, so it lies between the smallest and
   * the largest rate in the window.
   */
  lemma SmoothedHeartRateBounds(polls: seq<Poll>)
    requires polls != []
    ensures var r := SmoothedHeartRate(polls);
      && |polls| * r <= Sum(polls) < |polls| * (r + 1)
      && MinRate(polls) <= r <= MaxRate(polls)
  {
    SumBounds(polls, MinRate(polls), MaxRate(polls));
    FloorMean(|polls|, Sum(polls), MinRate(polls), MaxRate(polls));
  }

  lemma FloorMean(n: int, total: int, lo: int, hi: int)
    requires n > 0
    requires n * lo <= total <= n * hi
    ensures n * (total / n) <= total < n * (total / n + 1)
    ensures lo <= total / n <= hi
  {
    FloorBetween(n, total, total / n, lo, hi);
  }

  lemma FloorBetween(n: int, total: int, avg: int, lo: int, hi: int)
    requires n > 0 && avg == total / n
    requires n * lo <= total <= n * hi
    ensures n * avg <= total < n * (avg + 1)
    ensures lo <= avg <= hi
  {
    assert total == n * avg + total % n;
    if avg < lo {
      assert avg + 1 <= lo;
      MulMonotone(n, avg + 1, lo);
    }
    if avg > hi {
      MulMonotone(n, hi, avg);
    }
  }

  lemma MulMonotone(n: int, a: int, b: int)
    requires n > 0 && a <= b
    ensures n * a <= n * b
  {
  }

  /** With a zero interval and only strictly older entries, the window passes the latest rate through. */
  lemma ZeroIntervalPassesThrough(polls: seq<Poll>, heartRate: int, now: real)
    requires forall i :: 0 <= i < |polls| ==> polls[i].capturedAt < now
    ensures Populated(polls, heartRate, now, 0.0) == [Poll(now, heartRate)]
    ensures SmoothedHeartRate(Populated(polls, heartRate, now, 0.0)) == heartRate
  {
    RetainedNoneFresh(polls, now, 0.0);
    assert Populated(polls, heartRate, now, 0.0) == [] + [Poll(now, heartRate)];
    assert Sum([Poll(now, heartRate)]) == heartRate + Sum([]);
  }

  /** Interval 10 s, rates 60, 70, 80 at 0 s, 5 s, 12 s: at 12 s only the last two remain, average 75. */
  lemma EvictionScenario()
    ensures Populated(Populated(Populated([], 60, 0.0, 10.0), 70, 5.0, 10.0), 80, 12.0, 10.0)
         == [Poll(5.0, 70), Poll(12.0, 80)]
    ensures SmoothedHeartRate([Poll(5.0, 70), Poll(12.0, 80)]) == 75
  {
    var w1 := Populated([], 60, 0.0, 10.0);
    assert w1 == [Poll(0.0, 60)];
    var w2 := Populated(w1, 70, 5.0, 10.0);
    assert Retained(w1, 5.0, 10.0) == w1;
    assert w2 == [Poll(0.0, 60), Poll(5.0, 70)];
    assert w2[1..] == [Poll(5.0, 70)];
    assert Retained(w2, 12.0, 10.0) == [Poll(5.0, 70)];
  }
}
