/** Ring buffers of the streaming client: statistics over the last samples, and the scrolling plot. */
module StreamStatistics {
  const MAX_SAMPLES: nat := 200

  // ---------------------------------------------------------------- rings and "the last N"

  function Min(a: nat, b: nat): nat {
    if a <= b then a else b
  }

  function Last<T>(s: seq<T>, n: nat): (r: seq<T>)
    ensures |r| == Min(|s|, n)
  {
    s[|s| - Min(|s|, n)..]
  }

  /** The cells read from the cursor with wraparound. */
  function Content<T>(cells: seq<T>, cursor: nat): (r: seq<T>)
    requires cursor <= |cells|
    ensures |r| == |cells|
  {
    cells[cursor..] + cells[..cursor]
  }

  /** Overwriting the cell at the cursor and moving on drops the oldest and appends the newest. */
  lemma StoreShifts<T>(cells: seq<T>, cursor: nat, x: T)
    requires cursor < |cells|
    ensures Content(cells[cursor := x], (cursor + 1) % |cells|) == Content(cells, cursor)[1..] + [x]
  {
    var stored := cells[cursor := x];
    if cursor + 1 == |cells| {
      assert (cursor + 1) % |cells| == 0;
      assert stored == cells[..cursor] + [x];
    } else {
      assert (cursor + 1) % |cells| == cursor + 1;
      assert stored[cursor + 1..] == cells[cursor..][1..];
      assert stored[..cursor + 1] == cells[..cursor] + [x];
    }
  }

  lemma LastAppend<T>(s: seq<T>, n: nat, x: T)
    requires n > 0
    ensures Last(s + [x], n) == (if |s| < n then s else Last(s, n)[1..]) + [x]
  {
  }

  // ---------------------------------------------------------------- sums

  function Sum(s: seq<real>): real {
    if s == [] then 0.0 else s[0] + Sum(s[1..])
  }

  lemma {:induction false} SumAppend(a: seq<real>, b: seq<real>)
    ensures Sum(a + b) == Sum(a) + Sum(b)
    decreases |a|
  {
    if a == [] {
      assert a + b == b;
    } else {
      assert (a + b)[1..] == a[1..] + b;
      SumAppend(a[1..], b);
    }
  }

  function Zeros(n: nat): (r: seq<real>)
    ensures |r| == n
  {
    seq(n, _ => 0.0)
  }

  lemma {:induction false} SumZeros(n: nat)
    ensures Sum(Zeros(n)) == 0.0
    decreases n
  {
    if n > 0 {
      assert Zeros(n)[1..] == Zeros(n - 1);
      SumZeros(n - 1);
    }
  }

  /** Cells not written yet are zero and do not show in the sum. */
  lemma PaddedSum(s: seq<real>, n: nat)
    ensures Sum(Last(Zeros(n) + s, n)) == Sum(Last(s, n))
  {
    var k := n - Min(|s|, n);
    assert Last(Zeros(n) + s, n) == Zeros(k) + Last(s, n);
    SumAppend(Zeros(k), Last(s, n));
    SumZeros(k);
  }

  // ---------------------------------------------------------------- running sums (CalcFPS, CalcStatistics)

  datatype Window = Window(cells: seq<real>, index: nat, sum: real, samples: nat)

  const EMPTY_WINDOW := Window(Zeros(MAX_SAMPLES), 0, 0.0, 0)

  predicate Fits(w: Window) {
    |w.cells| == MAX_SAMPLES && w.index < MAX_SAMPLES
  }

  /** Both functions take the oldest sample out of the sum, put the new one in and store it. */
  function Put(w: Window, x: real): Window
    requires Fits(w)
  {
    Window(
      w.cells[w.index := x],
      if w.index + 1 == MAX_SAMPLES then 0 else w.index + 1,
      w.sum - w.cells[w.index] + x,
      if w.samples < MAX_SAMPLES then w.samples + 1 else w.samples)
  }

  function PutAll(seen: seq<real>): (w: Window)
    ensures Fits(w)
  {
    if seen == [] then EMPTY_WINDOW else Put(PutAll(seen[..|seen| - 1]), seen[|seen| - 1])
  }

  /** Read from the cursor, the ring is the history, padded with zeros in front, cut to its last 200. */
  lemma {:induction false} RingIsLast(seen: seq<real>)
    ensures var w := PutAll(seen);
            && Content(w.cells, w.index) == Last(Zeros(MAX_SAMPLES) + seen, MAX_SAMPLES)
            && w.sum == Sum(Content(w.cells, w.index))
            && w.samples == Min(|seen|, MAX_SAMPLES)
    decreases |seen|
  {
    if seen == [] {
      SumZeros(MAX_SAMPLES);
      assert Zeros(MAX_SAMPLES) + seen == Zeros(MAX_SAMPLES);
    } else {
      var before, x := seen[..|seen| - 1], seen[|seen| - 1];
      RingIsLast(before);
      RingStep(PutAll(before), Zeros(MAX_SAMPLES) + before, x);
      assert Zeros(MAX_SAMPLES) + seen == (Zeros(MAX_SAMPLES) + before) + [x];
    }
  }

  lemma RingStep(w: Window, history: seq<real>, x: real)
    requires Fits(w) && |history| >= MAX_SAMPLES
    requires Content(w.cells, w.index) == Last(history, MAX_SAMPLES) && w.sum == Sum(Content(w.cells, w.index))
    ensures var next := Put(w, x);
            Content(next.cells, next.index) == Last(history + [x], MAX_SAMPLES) && next.sum == Sum(Content(next.cells, next.index))
  {
    var held, next := Content(w.cells, w.index), Put(w, x);
    StoreShifts(w.cells, w.index, x);
    assert next.index == (w.index + 1) % MAX_SAMPLES && held[0] == w.cells[w.index];
    assert Content(next.cells, next.index) == held[1..] + [x];
    ShiftedSum(held, x);
    LastAppend(history, MAX_SAMPLES, x);
  }

  lemma ShiftedSum(s: seq<real>, x: real)
    requires s != []
    ensures Sum(s[1..] + [x]) == Sum(s) - s[0] + x
  {
    SumAppend(s[1..], [x]);
    assert [x][1..] == [];
  }

  /** After any samples the running sum is the sum of the last 200 of them, or of all while there are fewer. */
  lemma WindowRefines(seen: seq<real>)
    ensures PutAll(seen).sum == Sum(Last(seen, 200)) && PutAll(seen).samples == Min(|seen|, 200)
  {
    RingIsLast(seen);
    PaddedSum(seen, MAX_SAMPLES);
  }

  /** Conversion of a double to an integer type drops the fraction. */
  function Truncate(x: real): (r: int)
    ensures x >= 0.0 ==> r as real <= x < r as real + 1.0
    ensures x < 0.0 ==> r as real - 1.0 < x <= r as real
  {
    if x >= 0.0 then x.Floor else -(-x).Floor
  }

  /** The rate CalcFPS leaves; a zero sum keeps the one before. */
  function Fps(w: Window, before: int): int {
    if w.sum != 0.0 then Truncate(w.samples as real / w.sum) else before
  }

  /** std::round: halves go away from zero. */
  function Round(x: real): int {
    if x >= 0.0 then (x + 0.5).Floor else -(0.5 - x).Floor
  }

  lemma HalvesGoAway(k: int)
    requires k >= 0
    ensures Round(k as real + 0.5) == k + 1 && Round(-(k as real) - 0.5) == -k - 1
  {
  }

  function RoundMicro(x: real): (r: real)
    ensures x - 0.0000005 <= r <= x + 0.0000005
    ensures r * 1000000.0 == Round(x * 1000000.0) as real
  {
    Round(x * 1000000.0) as real / 1000000.0
  }

  /** The frame-time window of StreamingStatistics, after init. */
  class FrameTimes {
    const frametimelist: array<real>
    var frametimeindex: nat
    var frametimesamples: nat
    var frametimesum: real
    var captureFps: int

    constructor ()
      ensures Valid() && fresh(frametimelist) && captureFps == 0 && Now() == PutAll([])
    {
      frametimelist := new real[MAX_SAMPLES](_ => 0.0);
      frametimeindex, frametimesamples, frametimesum, captureFps := 0, 0, 0.0, 0;
      new;
      assert frametimelist[..] == Zeros(MAX_SAMPLES);
    }

    ghost predicate Valid()
      reads this
    {
      frametimelist.Length == MAX_SAMPLES && frametimeindex < MAX_SAMPLES
    }

    ghost function Now(): (w: Window)
      requires Valid()
      reads this, frametimelist
      ensures Fits(w)
    {
      Window(frametimelist[..], frametimeindex, frametimesum, frametimesamples)
    }

    method CalcFPS(newFrameTime: real)
      requires Valid()
      modifies this, frametimelist
      ensures Valid() && Now() == Put(old(Now()), newFrameTime)
      ensures captureFps == Fps(Now(), old(captureFps))
    {
      frametimesum := frametimesum - frametimelist[frametimeindex];
      frametimesum := frametimesum + newFrameTime;
      frametimelist[frametimeindex] := newFrameTime;
      frametimeindex := frametimeindex + 1;
      if frametimeindex == MAX_SAMPLES {
        frametimeindex := 0;
      }
      if frametimesamples < MAX_SAMPLES {
        frametimesamples := frametimesamples + 1;
      }
      if frametimesum != 0.0 {
        captureFps := Truncate(frametimesamples as real / frametimesum);
      }
    }
  }

  /** The rate reported after any samples is their number over their sum, for the last 200 of them. */
  lemma FpsIsRate(seen: seq<real>, before: int)
    ensures var recent := Last(seen, MAX_SAMPLES);
            Fps(PutAll(seen), before) == if Sum(recent) != 0.0 then Truncate(|recent| as real / Sum(recent)) else before
  {
    WindowRefines(seen);
  }

  // ---------------------------------------------------------------- minimum, maximum and average (CalcStatistics)

  /** An extreme of zero counts as not set. */
  function LowerOf(low: real, x: real): real {
    if x < low || low == 0.0 then x else low
  }

  function HigherOf(high: real, x: real): real {
    if x > high || high == 0.0 then x else high
  }

  function LowestOf(seen: seq<real>): real {
    if seen == [] then 0.0 else LowerOf(LowestOf(seen[..|seen| - 1]), seen[|seen| - 1])
  }

  function HighestOf(seen: seq<real>): real {
    if seen == [] then 0.0 else HigherOf(HighestOf(seen[..|seen| - 1]), seen[|seen| - 1])
  }

  predicate IsLeast(m: real, s: seq<real>) {
    m in s && forall i :: 0 <= i < |s| ==> m <= s[i]
  }

  predicate IsGreatest(m: real, s: seq<real>) {
    m in s && forall i :: 0 <= i < |s| ==> s[i] <= m
  }

  predicate SomeNegative(s: seq<real>) {
    exists i :: 0 <= i < |s| && s[i] < 0.0
  }

  predicate SomePositive(s: seq<real>) {
    exists i :: 0 <= i < |s| && s[i] > 0.0
  }

  /** Once a negative sample has come, the minimum stays true. */
  lemma {:induction false} LowestWithNegative(seen: seq<real>)
    requires SomeNegative(seen)
    ensures LowestOf(seen) < 0.0 && IsLeast(LowestOf(seen), seen)
    decreases |seen|
  {
    var n := |seen| - 1;
    var before := seen[..n];
    assert seen == before + [seen[n]];
    if SomeNegative(before) {
      LowestWithNegative(before);
    } else {
      LowestNonNegative(before);
      assert forall i :: 0 <= i < n ==> seen[i] == before[i];
    }
  }

  /** Until then it is zero right after a zero, and true as long as there was no zero. */
  lemma {:induction false} LowestNonNegative(seen: seq<real>)
    requires !SomeNegative(seen)
    ensures LowestOf(seen) >= 0.0
    ensures seen != [] ==> (LowestOf(seen) == 0.0 <==> seen[|seen| - 1] == 0.0)
    ensures seen != [] && 0.0 !in seen ==> IsLeast(LowestOf(seen), seen)
    decreases |seen|
  {
    if seen != [] {
      var n := |seen| - 1;
      var before := seen[..n];
      assert seen == before + [seen[n]];
      assert forall i :: 0 <= i < n ==> before[i] == seen[i];
      LowestNonNegative(before);
    }
  }

  /** The reported minimum is the least sample exactly when no zero below all others was forgotten. */
  lemma MinimumIsTrueIff(seen: seq<real>)
    requires seen != []
    ensures IsLeast(LowestOf(seen), seen) <==> 0.0 !in seen || seen[|seen| - 1] == 0.0 || SomeNegative(seen)
  {
    if SomeNegative(seen) {
      LowestWithNegative(seen);
    } else {
      LowestNonNegative(seen);
    }
  }

  function Negated(seen: seq<real>): (r: seq<real>)
    ensures |r| == |seen| && forall i :: 0 <= i < |seen| ==> r[i] == -seen[i]
  {
    seq(|seen|, i requires 0 <= i < |seen| => -seen[i])
  }

  /** The maximum mirrors the minimum. */
  lemma {:induction false} HighestMirrors(seen: seq<real>)
    ensures HighestOf(seen) == -LowestOf(Negated(seen))
    decreases |seen|
  {
    if seen != [] {
      var n := |seen| - 1;
      assert Negated(seen)[..n] == Negated(seen[..n]);
      HighestMirrors(seen[..n]);
    }
  }

  lemma NegatedHolds(seen: seq<real>, x: real)
    ensures x in seen <==> -x in Negated(seen)
  {
    if x in seen {
      var i :| 0 <= i < |seen| && seen[i] == x;
      assert Negated(seen)[i] == -x;
    }
  }

  lemma GreatestMirrors(seen: seq<real>, m: real)
    ensures IsGreatest(m, seen) <==> IsLeast(-m, Negated(seen))
  {
    NegatedHolds(seen, m);
    if IsLeast(-m, Negated(seen)) {
      assert forall i :: 0 <= i < |seen| ==> -m <= Negated(seen)[i] && seen[i] == -Negated(seen)[i];
    }
  }

  lemma PositiveMirrors(seen: seq<real>)
    ensures SomePositive(seen) <==> SomeNegative(Negated(seen))
  {
    if SomePositive(seen) {
      var i :| 0 <= i < |seen| && seen[i] > 0.0;
      assert Negated(seen)[i] < 0.0;
    }
  }

  /** The reported maximum is the greatest sample exactly when no zero above all others was forgotten. */
  lemma MaximumIsTrueIff(seen: seq<real>)
    requires seen != []
    ensures IsGreatest(HighestOf(seen), seen) <==> 0.0 !in seen || seen[|seen| - 1] == 0.0 || SomePositive(seen)
  {
    MinimumIsTrueIff(Negated(seen));
    HighestMirrors(seen);
    GreatestMirrors(seen, HighestOf(seen));
    PositiveMirrors(seen);
    NegatedHolds(seen, 0.0);
  }

  /** A frame without delay followed by a delayed one: the minimum is reported as 5. */
  lemma MinimumForgetsZero()
    ensures LowestOf([0.0, 5.0]) == 5.0 && !IsLeast(LowestOf([0.0, 5.0]), [0.0, 5.0])
  {
    assert [0.0, 5.0][..1] == [0.0];
    MinimumIsTrueIff([0.0, 5.0]);
  }

  /** Frame delays are signed: after 0 and -5 the maximum is reported as -5. */
  lemma MaximumForgetsZero()
    ensures HighestOf([0.0, -5.0]) == -5.0 && !IsGreatest(HighestOf([0.0, -5.0]), [0.0, -5.0])
  {
    assert [0.0, -5.0][..1] == [0.0];
    MaximumIsTrueIff([0.0, -5.0]);
  }

  /** One group of fields that CalcStatistics is called on, such as the encode times. */
  datatype Stats = Stats(cells: seq<real>, index: nat, sum: real, now: real, avg: real, low: real, high: real)

  /** The frame-time sum is another metric's field; it guards the average. */
  datatype Call = Call(newTime: real, frametimesum: real)

  predicate StatsOk(s: Stats) {
    |s.cells| == MAX_SAMPLES && s.index < MAX_SAMPLES
  }

  /** The average always divides by 200, also while fewer times are held, and keeps six decimals. */
  function Average(sum: real): (r: real)
    ensures sum / 200.0 - 0.0000005 <= r <= sum / 200.0 + 0.0000005
    ensures r * 1000000.0 == Round(sum / 200.0 * 1000000.0) as real
  {
    RoundMicro(sum / 200.0)
  }

  function Calc(s: Stats, c: Call): (r: Stats)
    requires StatsOk(s)
    ensures StatsOk(r)
  {
    var w := Put(Window(s.cells, s.index, s.sum, 0), c.newTime);
    var avg := if c.frametimesum != 0.0 then Average(w.sum) else s.avg;
    Stats(w.cells, w.index, w.sum, c.newTime, avg, LowerOf(s.low, c.newTime), HigherOf(s.high, c.newTime))
  }

  function CalcAll(calls: seq<Call>): (s: Stats)
    ensures StatsOk(s)
  {
    if calls == [] then Stats(Zeros(MAX_SAMPLES), 0, 0.0, 0.0, 0.0, 0.0, 0.0)
    else Calc(CalcAll(calls[..|calls| - 1]), calls[|calls| - 1])
  }

  function Times(calls: seq<Call>): (r: seq<real>)
    ensures |r| == |calls| && forall i :: 0 <= i < |calls| ==> r[i] == calls[i].newTime
  {
    seq(|calls|, i requires 0 <= i < |calls| => calls[i].newTime)
  }

  lemma {:induction false} StatsFollowTimes(calls: seq<Call>)
    ensures var s, w := CalcAll(calls), PutAll(Times(calls));
            && s.cells == w.cells && s.index == w.index && s.sum == w.sum
            && s.low == LowestOf(Times(calls)) && s.high == HighestOf(Times(calls))
    decreases |calls|
  {
    if calls != [] {
      var before := calls[..|calls| - 1];
      assert Times(calls)[..|calls| - 1] == Times(before);
      StatsFollowTimes(before);
    }
  }

  lemma AverageOfSum(calls: seq<Call>)
    ensures calls != [] && calls[|calls| - 1].frametimesum != 0.0 ==> CalcAll(calls).avg == Average(CalcAll(calls).sum)
    ensures calls != [] && calls[|calls| - 1].frametimesum == 0.0 ==> CalcAll(calls).avg == CalcAll(calls[..|calls| - 1]).avg
    ensures calls != [] ==> CalcAll(calls).now == calls[|calls| - 1].newTime
  {
  }

  /**
   * After any calls the sum is that of the last 200 times; the average is taken from it, unless the last
   * call came with a frame-time sum of zero.
   */
  lemma StatsRefine(calls: seq<Call>)
    ensures var s, times := CalcAll(calls), Times(calls);
            && s.sum == Sum(Last(times, MAX_SAMPLES)) && s.low == LowestOf(times) && s.high == HighestOf(times)
            && (calls != [] && calls[|calls| - 1].frametimesum != 0.0 ==> s.avg == Average(Sum(Last(times, MAX_SAMPLES))))
            && (calls != [] && calls[|calls| - 1].frametimesum == 0.0 ==> s.avg == CalcAll(calls[..|calls| - 1]).avg)
            && (calls != [] ==> s.now == calls[|calls| - 1].newTime)
  {
    StatsFollowTimes(calls);
    WindowRefines(Times(calls));
    AverageOfSum(calls);
  }

  class Metric {
    const timelist: array<real>
    var index: nat
    var timesum: real
    var realTime: real
    var avgTime: real
    var minTime: real
    var maxTime: real

    constructor ()
      ensures Valid() && fresh(timelist) && Now() == CalcAll([])
    {
      timelist := new real[MAX_SAMPLES](_ => 0.0);
      index, timesum, realTime, avgTime, minTime, maxTime := 0, 0.0, 0.0, 0.0, 0.0, 0.0;
      new;
      assert timelist[..] == Zeros(MAX_SAMPLES);
    }

    ghost predicate Valid()
      reads this
    {
      timelist.Length == MAX_SAMPLES && index < MAX_SAMPLES
    }

    ghost function Now(): Stats
      reads this, timelist
    {
      Stats(timelist[..], index, timesum, realTime, avgTime, minTime, maxTime)
    }

    method CalcStatistics(newTime: real, frametimesum: real)
      requires Valid()
      modifies this, timelist
      ensures Valid() && Now() == Calc(old(Now()), Call(newTime, frametimesum))
    {
      realTime := newTime;
      if newTime < minTime || minTime == 0.0 {
        minTime := newTime;
      }
      if newTime > maxTime || maxTime == 0.0 {
        maxTime := newTime;
      }
      timesum := timesum - timelist[index];
      timesum := timesum + newTime;
      timelist[index] := newTime;
      index := index + 1;
      if index == MAX_SAMPLES {
        index := 0;
      }
      if frametimesum != 0.0 {
        avgTime := timesum / 200.0;
        avgTime := RoundMicro(avgTime);
      }
    }
  }

  // ---------------------------------------------------------------- the scrolling plot

  datatype Point = Point(x: real, y: real)

  const HIGHEST_Y := 2000.0

  datatype Plot = Plot(data: seq<Point>, offset: nat)

  predicate PlotOk(b: Plot, maxSize: nat) {
    |b.data| <= maxSize && if |b.data| < maxSize then b.offset == 0 else b.offset < maxSize
  }

  function Plotted(b: Plot, maxSize: nat, p: Point): (r: Plot)
    requires maxSize > 0 && PlotOk(b, maxSize)
    ensures PlotOk(r, maxSize)
  {
    if p.y > HIGHEST_Y then b
    else if |b.data| < maxSize then b.(data := b.data + [p])
    else Plot(b.data[b.offset := p], (b.offset + 1) % maxSize)
  }

  function PlotAll(points: seq<Point>, maxSize: nat): (b: Plot)
    requires maxSize > 0
    ensures PlotOk(b, maxSize)
  {
    if points == [] then Plot([], 0) else Plotted(PlotAll(points[..|points| - 1], maxSize), maxSize, points[|points| - 1])
  }

  function Accepted(points: seq<Point>): seq<Point> {
    if points == [] then []
    else Accepted(points[..|points| - 1]) + if points[|points| - 1].y > HIGHEST_Y then [] else [points[|points| - 1]]
  }

  /** Accepted are exactly the points not above 2000. */
  lemma {:induction false} AcceptedExactly(points: seq<Point>, p: Point)
    ensures p in Accepted(points) <==> p in points && p.y <= 2000.0
    decreases |points|
  {
    if points != [] {
      var n := |points| - 1;
      AcceptedExactly(points[..n], p);
      assert points == points[..n] + [points[n]];
    }
  }

  /** Read from its offset with wraparound, the plot is exactly the last accepted points, in order. */
  lemma {:induction false} PlotIsLast(points: seq<Point>, maxSize: nat)
    requires maxSize > 0
    ensures var b := PlotAll(points, maxSize); Content(b.data, b.offset) == Last(Accepted(points), maxSize)
    decreases |points|
  {
    if points != [] {
      var before, p := points[..|points| - 1], points[|points| - 1];
      PlotIsLast(before, maxSize);
      if p.y <= HIGHEST_Y {
        PlotStep(PlotAll(before, maxSize), maxSize, p, Accepted(before));
      }
    }
  }

  lemma PlotStep(b: Plot, maxSize: nat, p: Point, accepted: seq<Point>)
    requires maxSize > 0 && PlotOk(b, maxSize) && p.y <= HIGHEST_Y
    requires Content(b.data, b.offset) == Last(accepted, maxSize)
    ensures var r := Plotted(b, maxSize, p); Content(r.data, r.offset) == Last(accepted + [p], maxSize)
  {
    LastAppend(accepted, maxSize, p);
    if |b.data| < maxSize {
      assert Content(b.data, 0) == b.data;
    } else {
      StoreShifts(b.data, b.offset, p);
    }
  }

  class ScrollingBuffer {
    const maxSize: nat
    var offset: nat
    var data: seq<Point>

    constructor (maxSize: nat)
      requires maxSize > 0
      ensures this.maxSize == maxSize && Valid() && Now() == PlotAll([], maxSize)
    {
      this.maxSize := maxSize;
      offset, data := 0, [];
    }

    ghost predicate Valid()
      reads this
    {
      maxSize > 0 && PlotOk(Now(), maxSize)
    }

    ghost function Now(): Plot
      reads this
    {
      Plot(data, offset)
    }

    method AddPoint(x: real, y: real)
      requires Valid()
      modifies this
      ensures Valid() && Now() == Plotted(old(Now()), maxSize, Point(x, y))
    {
      if y > HIGHEST_Y {
        return;
      }
      if |data| < maxSize {
        data := data + [Point(x, y)];
      } else {
        data := data[offset := Point(x, y)];
        offset := (offset + 1) % maxSize;
      }
    }

    /** An empty buffer is left alone; its offset is zero already. */
    method Erase()
      requires Valid()
      modifies this
      ensures Valid() && Now() == PlotAll([], maxSize)
    {
      if |data| > 0 {
        data := [];
        offset := 0;
      }
    }
  }
}
