/** Hardware-error burst detection (hwErrorCount): errors less than five seconds apart are one error. */
module HardwareErrors {
  const HW_ERROR_INTERVAL: nat := 5000
  const HW_ERROR_DURATION_MAX: nat := 300
  const HW_ERROR_COUNT_MAX: nat := 10
  const U64: nat := 0x1_0000_0000_0000_0000

  datatype State = State(count: nat, occurTime: nat, duration: nat)

  const INIT := State(0, 0, 0)

  /** Unsigned 64-bit subtraction. */
  function Minus(a: nat, b: nat): nat {
    (a - b) % U64
  }

  function Count(s: State, now: nat): State {
    var delta := Minus(now, s.occurTime);
    if delta >= HW_ERROR_INTERVAL then State(0, now, 0)
    else State(s.count + 1, now, (s.duration + delta) % U64)
  }

  predicate Exits(s: State) {
    s.duration > HW_ERROR_DURATION_MAX || s.count > HW_ERROR_COUNT_MAX
  }

  class HardwareErrorCounter {
    var hwErrorCnt: nat
    var hwErrorOccurTimeInMs: nat
    var hwErrorDurationInMs: nat

    ghost function Abs(): State
      reads this
    {
      State(hwErrorCnt, hwErrorOccurTimeInMs, hwErrorDurationInMs)
    }

    constructor ()
      ensures Abs() == INIT
    {
      hwErrorCnt, hwErrorOccurTimeInMs, hwErrorDurationInMs := 0, 0, 0;
    }

    /** `exit` stands for the SIGINT the process sends itself. */
    method HwErrorCount(currTimeInMs: nat) returns (exit: bool)
      modifies this
      ensures Abs() == Count(old(Abs()), currTimeInMs)
      ensures exit <==> Exits(Abs())
    {
      var delta := Minus(currTimeInMs, hwErrorOccurTimeInMs);
      if delta >= HW_ERROR_INTERVAL {
        hwErrorCnt := 0;
        hwErrorDurationInMs := 0;
      } else {
        hwErrorCnt := hwErrorCnt + 1;
        hwErrorDurationInMs := (hwErrorDurationInMs + delta) % U64;
      }
      hwErrorOccurTimeInMs := currTimeInMs;
      exit := hwErrorDurationInMs > HW_ERROR_DURATION_MAX || hwErrorCnt > HW_ERROR_COUNT_MAX;
    }
  }

  // ---------------------------------------------------------------- the trace specification

  /** A monotonic clock's readings. */
  predicate Clock(times: seq<nat>) {
    && (forall i, j :: 0 <= i < j < |times| ==> times[i] <= times[j])
    && (forall i :: 0 <= i < |times| ==> times[i] < U64)
  }

  function Gap(times: seq<nat>, i: nat): int
    requires i + 1 < |times|
  {
    (times[i + 1] as int) - (times[i] as int)
  }

  /** The last `k` errors are one burst: each less than the interval after the one before, and no longer run exists. */
  predicate TrailingBurst(times: seq<nat>, k: nat) {
    && 1 <= k <= |times|
    && (forall i: nat :: |times| <= i + k && i + 1 < |times| ==> Gap(times, i) < HW_ERROR_INTERVAL)
    && (k < |times| ==> Gap(times, |times| - k - 1) >= HW_ERROR_INTERVAL)
  }

  function After(times: seq<nat>): State {
    if times == [] then INIT else Count(After(times[..|times| - 1]), times[|times| - 1])
  }

  /** With a monotonic clock nothing wraps. */
  lemma CountsWithoutWrap(s: State, now: nat)
    requires s.occurTime <= now < U64 && s.duration <= s.occurTime
    ensures Count(s, now) ==
            if now - s.occurTime >= HW_ERROR_INTERVAL then State(0, now, 0)
            else State(s.count + 1, now, s.duration + (now - s.occurTime))
  {
  }

  /** The subtraction is unsigned: a clock that went back starts a new burst. */
  lemma BackwardsClockResets(s: State, now: nat)
    requires now < s.occurTime < 0x1_0000_0000_0000_0000 && s.occurTime - now <= 0x1_0000_0000_0000_0000 - 5000
    ensures Count(s, now) == State(0, now, 0)
  {
  }

  lemma BurstGrows(times: seq<nat>, j: nat, now: nat)
    requires TrailingBurst(times, j)
    ensures TrailingBurst(times + [now], if now - times[|times| - 1] >= HW_ERROR_INTERVAL then 1 else j + 1)
  {
    var n, all := |times|, times + [now];
    assert forall i: nat :: i + 1 < n ==> Gap(all, i) == Gap(times, i);
    assert Gap(all, n - 1) == now - times[n - 1];
  }

  /** The counter holds the trailing burst of `k` errors: its length less one, its last time, its span. */
  predicate Describes(s: State, times: seq<nat>, k: nat) {
    && TrailingBurst(times, k)
    && times[|times| - k] <= times[|times| - 1]
    && s == State(k - 1, times[|times| - 1], times[|times| - 1] - times[|times| - k])
  }

  lemma CountStep(s: State, times: seq<nat>, j: nat, now: nat)
    requires Describes(s, times, j) && times[|times| - 1] <= now < U64
    ensures Describes(Count(s, now), times + [now], if now - times[|times| - 1] >= HW_ERROR_INTERVAL then 1 else j + 1)
  {
    BurstGrows(times, j, now);
    CountsWithoutWrap(s, now);
  }

  /** The clock value 0 the counter starts from acts as an error of its own. */
  lemma {:induction false} CounterIsTrailingBurst(times: seq<nat>) returns (k: nat)
    requires Clock(times)
    ensures Describes(After(times), [0] + times, k)
    decreases |times|
  {
    if times == [] {
      k := 1;
    } else {
      var n, now := |times|, times[|times| - 1];
      var init := [0] + times[..n - 1];
      var j := CounterIsTrailingBurst(times[..n - 1]);
      assert [0] + times == init + [now];
      CountStep(After(times[..n - 1]), init, j, now);
      k := if now - init[n - 1] >= HW_ERROR_INTERVAL then 1 else j + 1;
    }
  }

  lemma BurstPrefixed(times: seq<nat>, k: nat)
    requires TrailingBurst(times, k) && times[0] >= HW_ERROR_INTERVAL
    ensures TrailingBurst([0] + times, k)
  {
    var all := [0] + times;
    forall i: nat | 1 <= i < |times| ensures Gap(all, i) == Gap(times, i - 1) {
    }
    assert Gap(all, 0) == times[0];
  }

  /** A burst in plain figures: gaps under 5000 ms inside it, 5000 ms or more before it. */
  lemma BurstInMilliseconds(times: seq<nat>, k: nat)
    ensures TrailingBurst(times, k) <==>
            && 1 <= k <= |times|
            && (forall i: nat :: |times| - k <= i && i + 1 < |times| ==> times[i + 1] < times[i] + 5000)
            && (k < |times| ==> times[|times| - k] >= times[|times| - k - 1] + 5000)
  {
    if TrailingBurst(times, k) {
      forall i: nat | |times| - k <= i && i + 1 < |times| ensures times[i + 1] < times[i] + 5000 {
        assert Gap(times, i) < HW_ERROR_INTERVAL;
      }
    }
  }

  lemma BurstUnique(times: seq<nat>, j: nat, k: nat)
    requires TrailingBurst(times, j) && TrailingBurst(times, k)
    ensures j == k
  {
  }

  /** For every trace, the start of the clock counted as an error: exit exactly on a long or crowded burst. */
  lemma ExitsExactly(times: seq<nat>, k: nat)
    requires Clock(times) && TrailingBurst([0] + times, k)
    ensures var all := [0] + times;
            (Exits(After(times)) <==> all[|all| - 1] - all[|all| - k] > 300 || k >= 12) && After(times).count == k - 1
  {
    var j := CounterIsTrailingBurst(times);
    BurstUnique([0] + times, j, k);
  }

  /**
   * For errors from five seconds after boot on: the process exits at an error exactly when the burst
   * ending there spans more than 300 ms or has at least 12 errors.
   */
  lemma ExitsExactlyOnLongBurst(times: seq<nat>, k: nat)
    requires Clock(times) && times != [] && times[0] >= 5000 && TrailingBurst(times, k)
    ensures Exits(After(times)) <==> times[|times| - 1] - times[|times| - k] > 300 || k >= 12
    ensures After(times).count == k - 1
  {
    BurstPrefixed(times, k);
    ExitsExactly(times, k);
    PrefixedEnds(times, k);
  }

  lemma PrefixedEnds(times: seq<nat>, k: nat)
    requires 1 <= k <= |times|
    ensures var all := [0] + times; all[|all| - 1] == times[|times| - 1] && all[|all| - k] == times[|times| - k]
  {
  }

  /** Before that, a first error counts as the second of a burst that began at time 0. */
  lemma EarlyFirstErrorCounts(t: nat)
    requires t < 5000
    ensures After([t]) == State(1, t, t) && (Exits(After([t])) <==> t > 300)
  {
  }
}
