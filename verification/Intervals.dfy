/** Sorted time stamps and how many of them one closed interval can hold. */
module Intervals {
  import opened Prelude

  ghost predicate Sorted(times: seq<int>) {
    forall i, j :: 0 <= i < j < |times| ==> times[i] <= times[j]
  }

  ghost predicate AllUpTo(times: seq<int>, last: int) {
    forall i :: 0 <= i < |times| ==> times[i] <= last
  }

  /** The positions of the stamps inside the closed interval [from, to]. */
  ghost function Inside(times: seq<int>, from: int, to: int): set<nat> {
    set i: nat | i < |times| && from <= times[i] <= to
  }

  /** How many stamps the closed interval of that length holds. */
  ghost function Crowd(times: seq<int>, from: int, length: nat): nat {
    |Inside(times, from, from + length)|
  }

  /** Stamps `limit` positions apart are more than `window` apart in time. */
  ghost predicate Spaced(times: seq<int>, limit: nat, window: nat) {
    forall i, j {:trigger times[i], times[j]} :: 0 <= i && i + limit <= j < |times| ==> times[j] > times[i] + window
  }

  /** `while times and times[0] < cutoff: times.popleft()` */
  function TrimFront(times: seq<int>, cutoff: int): seq<int> {
    if times != [] && times[0] < cutoff then TrimFront(times[1..], cutoff) else times
  }

  /** How many leading times the left trim drops. */
  function Stale(times: seq<int>, cutoff: int): (k: nat)
    ensures k <= |times| && (forall i :: 0 <= i < k ==> times[i] < cutoff) && (k < |times| ==> times[k] >= cutoff)
  {
    if times == [] || times[0] >= cutoff then 0
    else
      assert forall i :: 0 < i < |times| ==> times[i] == times[1..][i - 1];
      1 + Stale(times[1..], cutoff)
  }

  lemma {:induction false} TrimDropsStale(times: seq<int>, cutoff: int)
    ensures TrimFront(times, cutoff) == times[Stale(times, cutoff)..]
  {
    if times != [] && times[0] < cutoff {
      TrimDropsStale(times[1..], cutoff);
    }
  }

  ghost function Range(lo: nat, n: nat): (r: set<nat>)
    ensures |r| == n
    ensures forall i: nat :: i in r <==> lo <= i < lo + n
  {
    if n == 0 then {} else Range(lo, n - 1) + {lo + n - 1}
  }

  lemma {:induction false} LeastOf(s: set<nat>) returns (least: nat)
    requires s != {}
    ensures least in s && forall i :: i in s ==> least <= i
  {
    least :| least in s;
    var rest := s - {least};
    assert forall i :: i in s ==> i == least || i in rest;
    if rest != {} {
      var other := LeastOf(rest);
      least := if other < least then other else least;
    }
  }

  /** Spaced stamps never crowd: no closed interval of length `window` holds more than `limit`. */
  lemma SpacedBoundsEveryInterval(times: seq<int>, limit: nat, window: nat, from: int)
    requires Spaced(times, limit, window)
    ensures Crowd(times, from, window) <= limit
  {
    var inside := Inside(times, from, from + window);
    if inside != {} {
      var lo := LeastOf(inside);
      forall i | i in inside ensures i in Range(lo, limit) {
        assert times[i] <= times[lo] + window;
      }
      SubsetSize(inside, Range(lo, limit));
    }
  }

  /** A crowded interval, given by its first and last position, is counted as crowded. */
  lemma CrowdedInterval(times: seq<int>, lo: nat, hi: nat, from: int, to: int)
    requires Sorted(times) && lo <= hi < |times|
    requires from <= times[lo] && times[hi] <= to
    ensures |Inside(times, from, to)| >= hi + 1 - lo
  {
    var range := Range(lo, hi + 1 - lo);
    forall i | i in range ensures i in Inside(times, from, to) {
      assert times[lo] <= times[i] <= times[hi];
    }
    SubsetSize(range, Inside(times, from, to));
  }
}
