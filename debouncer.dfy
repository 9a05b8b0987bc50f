/**
 * The debouncer `read_line_debounced` (monitor_control.c:104-116).
 *
 * The C function reads a GPIO line once, then keeps re-sampling it until the
 * same level has been seen on DEBOUNCE_COUNT consecutive re-samples. A read
 * that fails (a negative value) is returned at once. Here the line is a finite
 * stream of raw reads; when the stream runs out before the line has settled
 * the outcome is `Unsettled` (the C code would keep spinning).
 */
module Debouncer {

  /** DEBOUNCE_COUNT (monitor_control.c:18). */
  const DEBOUNCE_COUNT := 5

  datatype Reading =
    | LineError(code: int)   // the negative value a read returned
    | Level(value: int)      // the settled level
    | Unsettled              // the samples ran out first

  /** Sample `k` closes a run of DEBOUNCE_COUNT + 1 equal samples: the candidate and its re-samples. */
  predicate SettlesAt(s: seq<int>, k: int)
  {
    DEBOUNCE_COUNT <= k < |s| && forall j :: k - DEBOUNCE_COUNT <= j < k ==> s[j] == s[k]
  }

  /** None of the first `n` reads failed. */
  predicate NoError(s: seq<int>, n: int)
  {
    forall j :: 0 <= j < n && j < |s| ==> s[j] >= 0
  }

  /** No run of equal samples closes before index `n`. */
  predicate NoSettle(s: seq<int>, n: int)
  {
    forall k :: 0 <= k < n ==> !SettlesAt(s, k)
  }

  /**
   * What reading the stream `s` yields, having consumed `used` samples:
   * the first failed read, or else the first sample that closes a settled run,
   * or else nothing once the stream is exhausted.
   */
  predicate Outcome(s: seq<int>, r: Reading, used: nat): (b: bool)
    ensures b ==> used <= |s|
    ensures b && r.Level? ==> r.value >= 0
  {
    match r
    case LineError(e) =>
      1 <= used <= |s| && e == s[used - 1] && e < 0 && NoError(s, used - 1) && NoSettle(s, used - 1)
    case Level(v) =>
      1 <= used <= |s| && SettlesAt(s, used - 1) && v == s[used - 1] && NoError(s, used) && NoSettle(s, used - 1)
    case Unsettled =>
      used == |s| && NoError(s, |s|) && NoSettle(s, |s|)
  }

  /**
   * The C loop: `lastVal` is the candidate level, `stableCount` the number of
   * re-samples equal to it since it last changed; `used` counts the reads made.
   */
  method ReadLineDebounced(s: seq<int>) returns (r: Reading, used: nat)
    ensures Outcome(s, r, used)
  {
    if |s| == 0 {
      return Unsettled, 0;
    }
    var lastVal := s[0];
    used := 1;
    if lastVal < 0 {
      return LineError(lastVal), used;
    }
    var stableCount := 0;
    while stableCount < DEBOUNCE_COUNT
      invariant 1 <= used <= |s|
      invariant 0 <= stableCount <= DEBOUNCE_COUNT
      invariant stableCount < used
      invariant lastVal == s[used - 1]
      // the candidate has been seen on exactly the last stableCount + 1 reads
      invariant forall j :: used - 1 - stableCount <= j < used ==> s[j] == lastVal
      invariant used - 1 - stableCount == 0 || s[used - 2 - stableCount] != lastVal
      invariant NoError(s, used)
      invariant NoSettle(s, used - 1)
      decreases |s| - used
    {
      assert !SettlesAt(s, used - 1);
      if used == |s| {
        return Unsettled, used;
      }
      var val := s[used];
      used := used + 1;
      if val < 0 {
        return LineError(val), used;
      }
      if val == lastVal {
        stableCount := stableCount + 1;
      } else {
        stableCount := 0;
        lastVal := val;
      }
    }
    r := Level(lastVal);
  }

  /** The outcome is determined by the stream: reading it can yield only one result. */
  lemma OutcomeUnique(s: seq<int>, r1: Reading, used1: nat, r2: Reading, used2: nat)
    requires Outcome(s, r1, used1) && Outcome(s, r2, used2)
    ensures r1 == r2 && used1 == used2
  {
  }

  /** A level is reported only after DEBOUNCE_COUNT + 1 equal reads, and equals each of them. */
  lemma LevelNeedsFullRun(s: seq<int>, v: int, used: nat)
    requires Outcome(s, Level(v), used)
    ensures used >= DEBOUNCE_COUNT + 1 && v >= 0
    ensures forall j :: used - 1 - DEBOUNCE_COUNT <= j < used ==> s[j] == v
  {
  }

  /** A line that holds one level from the first read on settles on exactly its sixth read. */
  lemma SteadyLineSettles(s: seq<int>, v: int)
    requires |s| >= DEBOUNCE_COUNT + 1 && v >= 0
    requires forall j :: 0 <= j <= DEBOUNCE_COUNT ==> s[j] == v
    ensures Outcome(s, Level(v), DEBOUNCE_COUNT + 1)
  {
  }
}
