/**
 * Frame-skip accounting (updateFrameSkipped): within a cycle of at most three seconds the transcoder
 * reports how many frame slots passed without an encoded frame. Times are in microseconds.
 */
module FrameSkip {
  const RESTART_US: nat := 3000000
  const CYCLE_US: nat := 1000000

  /** `last` and `reports` are history: the previous clock reading and the reports of the running cycle. */
  datatype State = State(start: nat, encoded: nat, total: int, last: nat, reports: seq<int>)

  const INIT := State(0, 0, 0, 0, [])

  function Sum(s: seq<int>): int {
    if s == [] then 0 else Sum(s[..|s| - 1]) + s[|s| - 1]
  }

  /** The start-of-cycle test and the encoded-frame count. */
  function Entered(s: State, now: nat): State {
    if s.start == 0 || now - s.start >= RESTART_US then State(now, 0, 0, now, [])
    else s.(encoded := s.encoded + 1, last := now)
  }

  function Behind(s: State, interval: nat): int {
    s.last - (s.start + s.encoded * interval)
  }

  function Skip(s: State, interval: nat): int
    requires interval > 0
  {
    if Behind(s, interval) > 0 then Behind(s, interval) / interval - s.total else 0
  }

  function Reported(s: State, interval: nat): State
    requires interval > 0
  {
    s.(total := s.total + Skip(s, interval), reports := s.reports + [Skip(s, interval)])
  }

  /** A cycle that has lasted a second ends with this call. */
  function Left(s: State): State {
    if s.last - s.start >= CYCLE_US then State(s.last, 0, 0, s.last, []) else s
  }

  function Update(s: State, now: nat, interval: nat): State
    requires interval > 0
  {
    Left(Reported(Entered(s, now), interval))
  }

  class FrameSkipper {
    var startTimestampUS: nat
    var frameEncoded: nat
    var totalFrameskipped: int
    var frameskipped: int
    ghost var last: nat
    ghost var reports: seq<int>

    ghost function Abs(): State
      reads this
    {
      State(startTimestampUS, frameEncoded, totalFrameskipped, last, reports)
    }

    constructor ()
      ensures Abs() == INIT
    {
      startTimestampUS, frameEncoded, totalFrameskipped, frameskipped := 0, 0, 0, 0;
      last, reports := 0, [];
    }

    /** The division needs a positive frame interval, as in the source. */
    method UpdateFrameSkipped(timestamp: nat, interval: nat)
      requires interval > 0
      modifies this
      ensures Abs() == Update(old(Abs()), timestamp, interval)
      ensures frameskipped == Skip(Entered(old(Abs()), timestamp), interval)
    {
      last := timestamp;
      if startTimestampUS == 0 || timestamp - startTimestampUS >= RESTART_US {
        startTimestampUS, frameEncoded, totalFrameskipped, reports := timestamp, 0, 0, [];
      } else {
        frameEncoded := frameEncoded + 1;
      }
      var delta := timestamp - (startTimestampUS + frameEncoded * interval);
      frameskipped := if delta > 0 then delta / interval - totalFrameskipped else 0;
      totalFrameskipped := totalFrameskipped + frameskipped;
      reports := reports + [frameskipped];
      if timestamp - startTimestampUS >= CYCLE_US {
        startTimestampUS, frameEncoded, totalFrameskipped, reports := timestamp, 0, 0, [];
      }
    }
  }

  // ---------------------------------------------------------------- conservation

  function Elapsed(s: State): int {
    s.last - s.start
  }

  lemma ShiftQuotient(a: int, k: nat, d: nat)
    requires d > 0
    ensures (a - k * d) / d == a / d - k
  {
    var q, m := a / d, a % d;
    assert a == q * d + m;
    assert a - k * d == (q - k) * d + m by { assert (q - k) * d == q * d - k * d; }
    QuotientOf(a - k * d, q - k, m, d);
  }

  lemma QuotientOf(a: int, q: int, m: nat, d: nat)
    requires d > 0 && m < d && a == q * d + m
    ensures a / d == q
  {
    var p, n := a / d, a % d;
    assert (p - q) * d == m - n by { assert (p - q) * d == p * d - q * d; }
    if p > q {
      MulAtLeast(p - q, d);
    } else if p < q {
      MulAtLeast(q - p, d);
    }
  }

  lemma MulAtLeast(k: int, d: nat)
    requires k >= 1
    ensures k * d >= d
  {
  }

  lemma QuotientMonotone(a: int, b: int, d: nat)
    requires d > 0 && a <= b
    ensures a / d <= b / d
  {
    if a / d > b / d {
      MulAtLeast(a / d - b / d, d);
    }
  }

  /**
   * The invariant over a run with a nondecreasing clock and a constant interval: the reports add up to
   * the running total, and either the books balance or the encoder is ahead and owes at most one frame.
   */
  ghost predicate Inv(s: State, interval: nat)
    requires interval > 0
  {
    && s.start <= s.last
    && s.total == Sum(s.reports)
    && 0 <= s.total <= RESTART_US / interval
    && Elapsed(s) < RESTART_US
    && (if Behind(s, interval) > 0 then s.total + s.encoded == Elapsed(s) / interval
        else s.total <= 1)
  }

  /** Conservation: whenever the encoder is behind, encoded frames plus reported skips fill the elapsed slots. */
  lemma SkipConserves(s: State, interval: nat)
    requires interval > 0 && s.total == Sum(s.reports) && Behind(s, interval) > 0
    ensures var r := Reported(s, interval);
            r.encoded + Sum(r.reports) == Elapsed(r) / interval && r.total == Sum(r.reports) && r.total >= 0
  {
    var r := Reported(s, interval);
    ShiftQuotient(Elapsed(s), s.encoded, interval);
    SumSnoc(s.reports, Skip(s, interval));
    QuotientMonotone(0, Behind(s, interval), interval);
  }

  lemma SumSnoc(s: seq<int>, x: int)
    ensures Sum(s + [x]) == Sum(s) + x
  {
  }

  /** Entering the next call: at most one slot short of balance. */
  lemma EnteredBound(s: State, now: nat, interval: nat)
    requires interval > 0 && Inv(s, interval) && s.last <= now
    ensures var e := Entered(s, now);
            && e.start <= e.last && e.total == Sum(e.reports) && 0 <= e.total <= RESTART_US / interval
            && Elapsed(e) < RESTART_US
            && (Behind(e, interval) > 0 ==> e.total + e.encoded <= Elapsed(e) / interval + 1)
            && (Behind(e, interval) <= 0 ==> e.total <= 1)
  {
    var e := Entered(s, now);
    if e.encoded == s.encoded + 1 {
      QuotientMonotone(Elapsed(s), Elapsed(e), interval);
      assert e.encoded * interval == s.encoded * interval + interval;
      if Behind(e, interval) > 0 {
        QuotientMonotone(e.encoded * interval, Elapsed(e), interval);
        QuotientOf(e.encoded * interval, e.encoded, 0, interval);
      } else {
        QuotientMonotone(Elapsed(e), e.encoded * interval, interval);
        QuotientOf(e.encoded * interval, e.encoded, 0, interval);
      }
    }
  }

  /** One call: the reported value is never below -1, and the invariant survives. */
  lemma UpdateStep(s: State, now: nat, interval: nat)
    requires interval > 0 && Inv(s, interval) && s.last <= now
    ensures Skip(Entered(s, now), interval) >= -1
    ensures Reported(Entered(s, now), interval).total <= RESTART_US / interval
    ensures Inv(Update(s, now, interval), interval) && Update(s, now, interval).last == now
  {
    EnteredBound(s, now, interval);
    ReportKeeps(Entered(s, now), interval);
    LeaveKeeps(Reported(Entered(s, now), interval), interval);
  }

  /** The report, from a state at most one slot short of balance. */
  lemma ReportKeeps(e: State, interval: nat)
    requires interval > 0 && e.start <= e.last && e.total == Sum(e.reports) && 0 <= e.total <= RESTART_US / interval
    requires Elapsed(e) < RESTART_US
    requires Behind(e, interval) > 0 ==> e.total + e.encoded <= Elapsed(e) / interval + 1
    requires Behind(e, interval) <= 0 ==> e.total <= 1
    ensures Skip(e, interval) >= -1 && Inv(Reported(e, interval), interval)
  {
    if Behind(e, interval) > 0 {
      SkipConserves(e, interval);
      ShiftQuotient(Elapsed(e), e.encoded, interval);
      QuotientMonotone(Elapsed(e), RESTART_US, interval);
    } else {
      SumSnoc(e.reports, 0);
    }
  }

  lemma LeaveKeeps(r: State, interval: nat)
    requires interval > 0 && Inv(r, interval)
    ensures Inv(Left(r), interval) && Left(r).last == r.last
  {
  }

  // ---------------------------------------------------------------- whole runs

  function Reports(s: State, times: seq<nat>, interval: nat): (r: seq<int>)
    requires interval > 0
    ensures |r| == |times|
    decreases |times|
  {
    if times == [] then []
    else [Skip(Entered(s, times[0]), interval)] + Reports(Update(s, times[0], interval), times[1..], interval)
  }

  predicate Nondecreasing(from: nat, times: seq<nat>)
    decreases |times|
  {
    times == [] || (from <= times[0] && Nondecreasing(times[0], times[1..]))
  }

  /** In every run with a nondecreasing clock, no reported skip count is below -1. */
  lemma {:induction false} RunReportsAtLeastMinusOne(s: State, times: seq<nat>, interval: nat)
    requires interval > 0 && Inv(s, interval) && Nondecreasing(s.last, times)
    ensures forall k :: 0 <= k < |times| ==> Reports(s, times, interval)[k] >= -1
    decreases |times|
  {
    if times != [] {
      UpdateStep(s, times[0], interval);
      RunReportsAtLeastMinusOne(Update(s, times[0], interval), times[1..], interval);
    }
  }

  /**
   * A call that entered as `e`: the reports of its cycle add up to the running total, which stays within the
   * slots of three seconds, and when the encoder is behind, encoded and skipped frames fill the elapsed slots.
   */
  ghost predicate Accounts(e: State, interval: nat)
    requires interval > 0
  {
    var r := Reported(e, interval);
    && Skip(e, interval) >= -1 && r.total == Sum(r.reports) && r.total <= 3000000 / interval
    && (Behind(e, interval) > 0 ==> r.encoded + Sum(r.reports) == Elapsed(r) / interval)
  }

  lemma BalancedReports(e: State, interval: nat)
    requires interval > 0 && e.total == Sum(e.reports)
    ensures var r := Reported(e, interval);
            r.total == Sum(r.reports) && (Behind(e, interval) > 0 ==> r.encoded + Sum(r.reports) == Elapsed(r) / interval)
  {
    if Behind(e, interval) > 0 {
      SkipConserves(e, interval);
    } else {
      SumSnoc(e.reports, 0);
    }
  }

  lemma CallAccounts(s: State, now: nat, interval: nat)
    requires interval > 0 && Inv(s, interval) && s.last <= now
    ensures Accounts(Entered(s, now), interval)
  {
    UpdateStep(s, now, interval);
    assert Entered(s, now).total == Sum(Entered(s, now).reports);
    BalancedReports(Entered(s, now), interval);
  }

  ghost predicate AllAccount(s: State, times: seq<nat>, interval: nat)
    requires interval > 0
    decreases |times|
  {
    times == [] || (Accounts(Entered(s, times[0]), interval) && AllAccount(Update(s, times[0], interval), times[1..], interval))
  }

  /** Every call of every run with a nondecreasing clock. */
  lemma {:induction false} EveryCallAccounts(s: State, times: seq<nat>, interval: nat)
    requires interval > 0 && Inv(s, interval) && Nondecreasing(s.last, times)
    ensures AllAccount(s, times, interval)
    decreases |times|
  {
    if times != [] {
      CallAccounts(s, times[0], interval);
      UpdateStep(s, times[0], interval);
      EveryCallAccounts(Update(s, times[0], interval), times[1..], interval);
    }
  }

  function After(s: State, times: seq<nat>, interval: nat): State
    requires interval > 0
    decreases |times|
  {
    if times == [] then s else After(Update(s, times[0], interval), times[1..], interval)
  }

  /** A call opens a cycle at its own time exactly when there is none yet or the running one began three seconds ago. */
  lemma CycleOpensExactly(s: State, now: nat)
    ensures var e := Entered(s, now);
            if s.start == 0 || now - s.start >= 3000000 then e.start == now && e.encoded == 0 && e.reports == []
            else e.start == s.start && e.encoded == s.encoded + 1 && e.reports == s.reports
  {
  }

  /** A call ends the cycle exactly when it comes a second or more after its start. */
  lemma CycleEndsExactly(s: State, now: nat, interval: nat)
    requires interval > 0
    ensures var e, u := Entered(s, now), Update(s, now, interval);
            if now - e.start >= 1000000 then u.start == now && u.encoded == 0 && u.reports == []
            else u.start == e.start && u.encoded == e.encoded && u.reports == e.reports + [Skip(e, interval)]
  {
  }

  /** Every call of a cycle counts one frame, except the one that opened it if it opened the cycle itself. */
  predicate Tallied(s: State) {
    |s.reports| == s.encoded || |s.reports| == s.encoded + 1
  }

  lemma UpdateTallies(s: State, now: nat, interval: nat)
    requires interval > 0 && Tallied(s)
    ensures Tallied(Update(s, now, interval))
    ensures Elapsed(Update(s, now, interval)) < 1000000 && Update(s, now, interval).last == now
  {
  }

  /** After every call the frames of the running cycle are all counted and the cycle has lasted less than a second. */
  lemma {:induction false} RunTallies(s: State, times: seq<nat>, interval: nat)
    requires interval > 0 && Tallied(s) && Elapsed(s) < 1000000
    ensures var t := After(s, times, interval);
            Tallied(t) && Elapsed(t) < 1000000 && t.last == if times == [] then s.last else times[|times| - 1]
    decreases |times|
  {
    if times != [] {
      UpdateTallies(s, times[0], interval);
      RunTallies(Update(s, times[0], interval), times[1..], interval);
    }
  }

  /** The books never promise more slots than have passed. */
  ghost predicate Balanced(s: State, interval: nat)
    requires interval > 0
  {
    s.total + s.encoded <= Elapsed(s) / interval
  }

  lemma SpacedEntered(s: State, now: nat, interval: nat)
    requires interval > 0 && Inv(s, interval) && Balanced(s, interval) && s.last <= now
    requires s.last + interval <= now || Entered(s, now).encoded == 0
    ensures Balanced(Entered(s, now), interval)
  {
    var e := Entered(s, now);
    if e.encoded > 0 {
      QuotientMonotone(Elapsed(s) + interval, Elapsed(e), interval);
      ShiftQuotient(Elapsed(s) + interval, 1, interval);
    } else {
      QuotientMonotone(0, Elapsed(e), interval);
    }
  }

  lemma BalancedReport(e: State, interval: nat)
    requires interval > 0 && e.total == Sum(e.reports) && Balanced(e, interval) && e.start <= e.last
    ensures Skip(e, interval) >= 0 && Balanced(Left(Reported(e, interval)), interval)
  {
    QuotientOf(0, 0, 0, interval);
    if Behind(e, interval) > 0 {
      SkipConserves(e, interval);
      ShiftQuotient(Elapsed(e), e.encoded, interval);
    }
  }

  lemma SpacedStep(s: State, now: nat, interval: nat)
    requires interval > 0 && Inv(s, interval) && Balanced(s, interval) && s.last <= now
    requires s.last + interval <= now || Entered(s, now).encoded == 0
    ensures Skip(Entered(s, now), interval) >= 0 && Balanced(Update(s, now, interval), interval)
  {
    SpacedEntered(s, now, interval);
    BalancedReport(Entered(s, now), interval);
  }

  /** Each call comes at least one interval after the previous one, or opens a cycle. */
  ghost predicate Spaced(s: State, times: seq<nat>, interval: nat)
    requires interval > 0
    decreases |times|
  {
    times == [] ||
    (&& (s.last + interval <= times[0] || Entered(s, times[0]).encoded == 0)
     && Spaced(Update(s, times[0], interval), times[1..], interval))
  }

  /** If all gaps inside a cycle are at least one interval, no report is negative. */
  lemma {:induction false} SpacedRunNeverNegative(s: State, times: seq<nat>, interval: nat)
    requires interval > 0 && Inv(s, interval) && Balanced(s, interval) && Nondecreasing(s.last, times)
    requires Spaced(s, times, interval)
    ensures forall k :: 0 <= k < |times| ==> Reports(s, times, interval)[k] >= 0
    decreases |times|
  {
    if times != [] {
      UpdateStep(s, times[0], interval);
      SpacedStep(s, times[0], interval);
      SpacedRunNeverNegative(Update(s, times[0], interval), times[1..], interval);
    }
  }

  /** Both run theorems start from the initial state. */
  lemma InitInv(interval: nat)
    requires interval > 0
    ensures Inv(INIT, interval) && Balanced(INIT, interval)
  {
  }

  /** From the start of the transcoder: every call accounts for its cycle and reports at least -1. */
  lemma EveryRunAccounts(times: seq<nat>, interval: nat)
    requires interval > 0 && Nondecreasing(0, times)
    ensures AllAccount(INIT, times, interval)
    ensures forall k :: 0 <= k < |times| ==> Reports(INIT, times, interval)[k] >= -1
  {
    InitInv(interval);
    EveryCallAccounts(INIT, times, interval);
    RunReportsAtLeastMinusOne(INIT, times, interval);
  }

  /** From the start of the transcoder: all frames of the running cycle are counted, and it is shorter than a second. */
  lemma EveryRunTallies(times: seq<nat>, interval: nat)
    requires interval > 0
    ensures Tallied(After(INIT, times, interval)) && Elapsed(After(INIT, times, interval)) < 1000000
  {
    RunTallies(INIT, times, interval);
  }

  /** From the start of the transcoder: with all gaps at least one interval no report is negative. */
  lemma SpacedFromStart(times: seq<nat>, interval: nat)
    requires interval > 0 && Nondecreasing(0, times) && Spaced(INIT, times, interval)
    ensures forall k :: 0 <= k < |times| ==> Reports(INIT, times, interval)[k] >= 0
  {
    InitInv(interval);
    SpacedRunNeverNegative(INIT, times, interval);
  }

  /** The bound -1 is reached from every state more than one interval behind: a second call at the same time takes a slot back. */
  lemma MinusOneHappens(s: State, interval: nat)
    requires interval > 0 && Inv(s, interval) && s.start > 0 && Behind(s, interval) > interval
    ensures Skip(Entered(s, s.last), interval) == -1
  {
    var e := Entered(s, s.last);
    BehindIsTotal(s, interval);
    AgainAtOnce(s, interval);
    ShiftQuotient(Behind(s, interval), 1, interval);
    assert e.total == s.total && Behind(e, interval) == Behind(s, interval) - 1 * interval;
  }

  lemma BehindIsTotal(s: State, interval: nat)
    requires interval > 0 && Inv(s, interval) && Behind(s, interval) > 0
    ensures Behind(s, interval) / interval == s.total
  {
    ShiftQuotient(Elapsed(s), s.encoded, interval);
  }

  lemma AgainAtOnce(s: State, interval: nat)
    requires s.start > 0 && Elapsed(s) < RESTART_US
    ensures Entered(s, s.last) == s.(encoded := s.encoded + 1)
    ensures Behind(Entered(s, s.last), interval) == Behind(s, interval) - interval
  {
  }

  /** Such states are reachable: a first call, and a second one four intervals later in the same cycle. */
  lemma BehindIsReachable(start: nat, interval: nat)
    requires start > 0 && 0 < 4 * interval < CYCLE_US
    ensures var s := Update(Update(INIT, start, interval), start + 4 * interval, interval);
            s.start > 0 && Behind(s, interval) == 3 * interval
  {
  }
}
