/** Counting events in half-open spans of time. */
module Spans {
  ghost predicate Nondecreasing(times: seq<int>) {
    forall i, j | 0 <= i < j < |times| :: times[i] <= times[j]
  }

  lemma NondecreasingAppend(times: seq<int>, t: int)
    requires Nondecreasing(times) && (times != [] ==> times[|times| - 1] <= t)
    ensures Nondecreasing(times + [t])
  {
    var more := times + [t];
    forall i, j | 0 <= i < j < |more| ensures more[i] <= more[j] {
      if j == |times| && i < |times| - 1 { assert times[i] <= times[|times| - 1]; }
    }
  }

  /** How many of the times fall in [start, start + length). */
  function CountIn(times: seq<int>, start: int, length: nat): nat {
    if times == [] then 0
    else CountIn(times[..|times| - 1], start, length)
         + (if start <= times[|times| - 1] < start + length then 1 else 0)
  }

  /** Any event and the one k places later are at least `length` apart. */
  ghost predicate Spaced(times: seq<int>, k: nat, length: nat) {
    forall i: nat | i + k < |times| :: times[i] + length <= times[i + k]
  }

  lemma {:induction false} CountAfter(times: seq<int>, start: int, length: nat, skipped: nat)
    requires skipped <= |times| && forall i | 0 <= i < skipped :: times[i] < start
    ensures CountIn(times, start, length) <= |times| - skipped
  {
    if |times| > skipped { CountAfter(times[..|times| - 1], start, length, skipped); }
    else if times != [] { CountAfter(times[..|times| - 1], start, length, skipped - 1); }
  }

  /** Spaced events: no span of that length holds more than k of them, wherever it starts. */
  lemma {:induction false} SpacedBound(times: seq<int>, k: nat, length: nat, start: int)
    requires Nondecreasing(times) && Spaced(times, k, length)
    ensures CountIn(times, start, length) <= k
  {
    if times != [] {
      var last := |times| - 1;
      SpacedBound(times[..last], k, length, start);
      if start <= times[last] < start + length {
        if last >= k {
          assert times[last - k] + length <= times[last - k + k];
          forall i | 0 <= i < last - k + 1 ensures times[i] < start {
            assert times[i] <= times[last - k];
          }
          CountAfter(times[..last], start, length, last - k + 1);
        } else {
          CountAfter(times[..last], start, length, 0);
        }
      }
    }
  }
}
