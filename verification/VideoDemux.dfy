/**
 * The frame mailbox between the display thread and the transcoder thread: a one-packet slot whose latest
 * frame wins, a display control that stays until it is read, and fixed-rate pacing. Times are microseconds.
 */
module VideoDemux {
  import opened Options
  import opened Controls

  const NEW_FRAME_WAIT_TIMEOUT_MCS: int := 1000000

  /** A frame's buffer, told apart by its content. */
  type Frame = nat

  /** `submitted` and `sentSince` are history: all controls sent, and those of frames sent since the last delivery. */
  datatype State = State(
    data: Option<Frame>, ctrl: Option<Ctrl>, prevPts: int, totalWaitMcs: int, stop: bool, notified: bool,
    submitted: seq<Ctrl>, sentSince: seq<Option<Ctrl>>)

  datatype Call = Send(data: Option<Frame>, ctrl: Option<Ctrl>) | Stop

  datatype Mode = FixedRate(interval: int) | RenderRate(minFps: nat)

  /** The environment of one read: mode, clock at entry, calls landing while the lock is released, clock at the stamp. */
  datatype Env = Env(mode: Mode, now: int, during: seq<Call>, end: int, refOk: bool)

  datatype Result = NoData | RefFailed | Got(pts: int, frame: Frame, ctrl: Option<Ctrl>)

  datatype Event = Called(call: Call) | Read(env: Env)

  function Init(data: Option<Frame>): State {
    State(data, None, 0, 0, false, false, [], [])
  }

  function Apply(s: State, c: Call): State {
    match c
    case Stop => s.(stop := true)
    case Send(data, ctrl) =>
      s.(data := data, ctrl := if ctrl.Some? then ctrl else s.ctrl, notified := true,
         submitted := if ctrl.Some? then s.submitted + [ctrl.value] else s.submitted,
         sentSince := s.sentSince + [ctrl])
  }

  function ApplyAll(s: State, cs: seq<Call>): State
    decreases |cs|
  {
    if cs == [] then s else ApplyAll(Apply(s, cs[0]), cs[1..])
  }

  /** How long a read waits, given the last timestamp. */
  function WaitMcs(prevPts: int, e: Env): int {
    match e.mode
    case FixedRate(interval) =>
      var left := interval - (e.now - prevPts);
      if left > 0 then left else 0
    case RenderRate(minFps) => if minFps != 0 then 1000000 / minFps else NEW_FRAME_WAIT_TIMEOUT_MCS
  }

  /** The lock is released only for a real sleep, or to wait for a frame that is not there yet. */
  predicate Unlocks(s: State, e: Env) {
    if e.mode.FixedRate? then WaitMcs(s.prevPts, e) > 0 else !s.notified
  }

  function Waited(s: State, e: Env): State {
    var s1 := if Unlocks(s, e) then ApplyAll(s, e.during) else s;
    var total := if s1.notified || s1.stop then 0 else s1.totalWaitMcs + WaitMcs(s.prevPts, e);
    s1.(totalWaitMcs := if total >= NEW_FRAME_WAIT_TIMEOUT_MCS then 0 else total)
  }

  /** Copy the packet, move the control out, stamp; a failed packet copy still consumes the control. */
  function Taken(s: State, e: Env): (State, Result) {
    if s.data.None? then (s.(notified := false), NoData)
    else
      (s.(ctrl := None, prevPts := e.end, notified := false, sentSince := []),
       if e.refOk then Got(e.end, s.data.value, s.ctrl) else RefFailed)
  }

  function ReadPacket(s: State, e: Env): (State, Result) {
    Taken(Waited(s, e), e)
  }

  function Step(s: State, ev: Event): State {
    match ev
    case Called(c) => Apply(s, c)
    case Read(e) => ReadPacket(s, e).0
  }

  function Run(s: State, evs: seq<Event>): State
    decreases |evs|
  {
    if evs == [] then s else Run(Step(s, evs[0]), evs[1..])
  }

  class CIrrVideoDemux {
    var data: Option<Frame>
    var displayCtrl: Option<Ctrl>
    var prevPts: int
    var totalWaitMcs: int
    var stopped: bool
    var notified: bool
    ghost var submitted: seq<Ctrl>
    ghost var sentSince: seq<Option<Ctrl>>

    ghost function Abs(): State
      reads this
    {
      State(data, displayCtrl, prevPts, totalWaitMcs, stopped, notified, submitted, sentSince)
    }

    constructor (data: Option<Frame>)
      ensures Abs() == Init(data)
    {
      this.data, displayCtrl, prevPts, totalWaitMcs, stopped, notified := data, None, 0, 0, false, false;
      submitted, sentSince := [], [];
    }

    method SendOrStop(c: Call)
      modifies this
      ensures Abs() == Apply(old(Abs()), c)
    {
      match c {
        case Stop => stopped := true;
        case Send(frame, ctrl) =>
          data := frame;
          if ctrl.Some? {
            displayCtrl := ctrl;
            submitted := submitted + [ctrl.value];
          }
          sentSince := sentSince + [ctrl];
          notified := true;
      }
    }

    /** Other threads' calls while the lock is released. */
    method Interference(cs: seq<Call>)
      modifies this
      ensures Abs() == ApplyAll(old(Abs()), cs)
    {
      var i := 0;
      while i < |cs|
        invariant 0 <= i <= |cs|
        invariant ApplyAll(Abs(), cs[i..]) == ApplyAll(old(Abs()), cs)
      {
        SendOrStop(cs[i]);
        assert cs[i..][1..] == cs[i + 1..];
        i := i + 1;
      }
    }

    method WaitForFrame(e: Env)
      modifies this
      ensures Abs() == Waited(old(Abs()), e)
    {
      var wait := WaitMcs(prevPts, e);
      if e.mode.FixedRate? {
        if wait > 0 {
          Interference(e.during);
        }
      } else if !notified {
        Interference(e.during);
      }
      totalWaitMcs := totalWaitMcs + wait;
      if notified || stopped {
        totalWaitMcs := 0;
      }
      if totalWaitMcs >= NEW_FRAME_WAIT_TIMEOUT_MCS {
        totalWaitMcs := 0;
      }
    }

    method Receive(e: Env) returns (r: Result)
      modifies this
      ensures (Abs(), r) == ReadPacket(old(Abs()), e)
    {
      WaitForFrame(e);
      if data.None? {
        r := NoData;
      } else {
        r := if e.refOk then Got(e.end, data.value, displayCtrl) else RefFailed;
        displayCtrl := None;
        sentSince := [];
        prevPts := e.end;
      }
      notified := false;
    }
  }

  // ---------------------------------------------------------------- the control mailbox

  /** The last frame that carried a control. */
  function LastControl(sent: seq<Option<Ctrl>>): Option<Ctrl> {
    if sent == [] then None
    else if sent[|sent| - 1].Some? then sent[|sent| - 1]
    else LastControl(sent[..|sent| - 1])
  }

  /** The slot holds exactly the last control sent since the previous delivery. */
  ghost predicate Mailbox(s: State) {
    s.ctrl == LastControl(s.sentSince)
  }

  lemma {:induction false} CallsKeepMailbox(s: State, cs: seq<Call>)
    requires Mailbox(s)
    ensures Mailbox(ApplyAll(s, cs))
    decreases |cs|
  {
    if cs != [] {
      if cs[0].Send? {
        assert (s.sentSince + [cs[0].ctrl])[..|s.sentSince|] == s.sentSince;
      }
      CallsKeepMailbox(Apply(s, cs[0]), cs[1..]);
    }
  }

  lemma {:induction false} CallsKeepClock(s: State, cs: seq<Call>)
    ensures ApplyAll(s, cs).prevPts == s.prevPts && ApplyAll(s, cs).totalWaitMcs == s.totalWaitMcs
    decreases |cs|
  {
    if cs != [] {
      CallsKeepClock(Apply(s, cs[0]), cs[1..]);
    }
  }

  /** The controls of the frames that calls send, in order. */
  function ControlsOf(cs: seq<Call>): seq<Option<Ctrl>>
    decreases |cs|
  {
    if cs == [] then [] else (if cs[0].Send? then [cs[0].ctrl] else []) + ControlsOf(cs[1..])
  }

  lemma {:induction false} CallsAreRemembered(s: State, cs: seq<Call>)
    ensures ApplyAll(s, cs).sentSince == s.sentSince + ControlsOf(cs)
    decreases |cs|
  {
    if cs != [] {
      CallsAreRemembered(Apply(s, cs[0]), cs[1..]);
    }
  }

  /**
   * A successful read delivers exactly the last control sent since the previous delivery, including those
   * sent while it slept; a read without data keeps it; and the wait counter ends below one second.
   */
  lemma ReadDelivers(s: State, e: Env)
    requires Mailbox(s)
    ensures var (t, r) := ReadPacket(s, e);
            && Mailbox(t) && t.totalWaitMcs < 1000000
            && (r.Got? ==> r.ctrl == LastControl(Waited(s, e).sentSince))
            && (r.NoData? ==> t.ctrl == Waited(s, e).ctrl && t.sentSince == Waited(s, e).sentSince)
  {
    CallsKeepMailbox(s, e.during);
  }

  lemma {:induction false} RunKeepsMailbox(s: State, evs: seq<Event>)
    requires Mailbox(s)
    ensures Mailbox(Run(s, evs))
    decreases |evs|
  {
    if evs != [] {
      match evs[0] {
        case Called(c) =>
          CallsKeepMailbox(s, [c]);
          assert ApplyAll(s, [c]) == ApplyAll(Apply(s, c), []);
        case Read(e) => ReadDelivers(s, e);
      }
      RunKeepsMailbox(Step(s, evs[0]), evs[1..]);
    }
  }

  /** The lock is released exactly for a sleep before the frame interval is over, or when no frame has come. */
  lemma LockReleasedExactly(s: State, e: Env)
    ensures Unlocks(s, e) <==> match e.mode
                               case FixedRate(interval) => e.now - s.prevPts < interval
                               case RenderRate(_) => !s.notified
  {
  }

  /** The calls that take effect in a run, in order, those landing in unlocked waits included. */
  function Effective(s: State, evs: seq<Event>): seq<Call>
    decreases |evs|
  {
    if evs == [] then []
    else CallsOf(s, evs[0]) + Effective(Step(s, evs[0]), evs[1..])
  }

  function CallsOf(s: State, ev: Event): seq<Call> {
    match ev
    case Called(c) => [c]
    case Read(e) => if Unlocks(s, e) then e.during else []
  }

  /** The frame sent last, if any, else the one there before. */
  function LastFrame(before: Option<Frame>, cs: seq<Call>): Option<Frame> {
    if cs == [] then before
    else if cs[|cs| - 1].Send? then cs[|cs| - 1].data
    else LastFrame(before, cs[..|cs| - 1])
  }

  lemma {:induction false} LastFrameAppend(before: Option<Frame>, a: seq<Call>, b: seq<Call>)
    ensures LastFrame(before, a + b) == LastFrame(LastFrame(before, a), b)
    decreases |b|
  {
    if b == [] {
      assert a + b == a;
    } else {
      assert (a + b)[..|a + b| - 1] == a + b[..|b| - 1];
      LastFrameAppend(before, a, b[..|b| - 1]);
    }
  }

  lemma {:induction false} CallsLeaveLast(s: State, cs: seq<Call>)
    ensures ApplyAll(s, cs).data == LastFrame(s.data, cs)
    ensures ApplyAll(s, cs).notified == (s.notified || exists k :: 0 <= k < |cs| && cs[k].Send?)
    ensures ApplyAll(s, cs).stop == (s.stop || Stop in cs)
    decreases |cs|
  {
    if cs != [] {
      CallsLeaveLast(Apply(s, cs[0]), cs[1..]);
      LastFrameAppend(s.data, [cs[0]], cs[1..]);
      assert [cs[0]] + cs[1..] == cs;
      assert [cs[0]][..0] == [];
    }
  }

  lemma StepLeavesLast(s: State, ev: Event)
    ensures Step(s, ev).data == LastFrame(s.data, CallsOf(s, ev))
  {
    match ev
    case Called(c) =>
      CallsLeaveLast(s, [c]);
      assert ApplyAll(s, [c]) == ApplyAll(Apply(s, c), []);
    case Read(e) => CallsLeaveLast(s, e.during);
  }

  /** The slot holds the frame sent last. */
  lemma {:induction false} RunLeavesLast(s: State, evs: seq<Event>)
    ensures Run(s, evs).data == LastFrame(s.data, Effective(s, evs))
    decreases |evs|
  {
    if evs != [] {
      StepLeavesLast(s, evs[0]);
      RunLeavesLast(Step(s, evs[0]), evs[1..]);
      LastFrameAppend(s.data, CallsOf(s, evs[0]), Effective(Step(s, evs[0]), evs[1..]));
    }
  }

  /**
   * What one read does, after its wait: it fails without a frame or when the packet cannot be copied, and
   * otherwise delivers the frame with the one clock reading that also becomes the last timestamp.
   */
  lemma ReadExactly(s: State, e: Env)
    ensures var w := Waited(s, e);
            var (t, r) := ReadPacket(s, e);
            && (r.Got? <==> w.data.Some? && e.refOk) && (r.NoData? <==> w.data.None?)
            && (r.Got? ==> r.pts == e.end && w.data == Some(r.frame))
            && t.prevPts == (if w.data.Some? then e.end else s.prevPts)
            && t.data == w.data && !t.notified && t.stop == w.stop
            && w.sentSince == s.sentSince + ControlsOf(CallsOf(s, Read(e)))
            && t.sentSince == (if w.data.Some? then [] else w.sentSince)
  {
    CallsKeepClock(s, e.during);
    CallsAreRemembered(s, e.during);
  }

  /**
   * After any interleaving of sends, stops and reads: the next successful read delivers the frame sent last and
   * the last control sent since the previous one.
   */
  lemma EveryReadDelivers(data: Option<Frame>, evs: seq<Event>, e: Env)
    ensures var s := Run(Init(data), evs);
            var (t, r) := ReadPacket(s, e);
            && t.totalWaitMcs < 1000000
            && (r.Got? ==> Some(r.frame) == LastFrame(data, Effective(Init(data), evs) + CallsOf(s, Read(e))))
            && (r.Got? ==> r.ctrl == LastControl(Waited(s, e).sentSince) && t.sentSince == [])
            && (r.NoData? ==> t.ctrl == LastControl(Waited(s, e).sentSince) && t.sentSince == Waited(s, e).sentSince)
  {
    var s := Run(Init(data), evs);
    RunKeepsMailbox(Init(data), evs);
    ReadDelivers(s, e);
    CallsKeepMailbox(s, e.during);
    RunLeavesLast(Init(data), evs);
    StepLeavesLast(s, Read(e));
    LastFrameAppend(data, Effective(Init(data), evs), CallsOf(s, Read(e)));
  }

  // ---------------------------------------------------------------- waiting

  /** A fixed-rate wait is the shortest that lets the interval pass; otherwise a second is cut into minFps parts. */
  lemma WaitExactly(prevPts: int, e: Env)
    ensures var w := WaitMcs(prevPts, e);
            match e.mode
            case FixedRate(interval) => w >= 0 && e.now + w >= prevPts + interval && (w > 0 ==> e.now + w == prevPts + interval)
            case RenderRate(minFps) =>
              if minFps == 0 then w == 1000000 else w * minFps <= 1000000 < (w + 1) * minFps
  {
    if e.mode.RenderRate? && e.mode.minFps != 0 {
      var q, r := 1000000 / e.mode.minFps, 1000000 % e.mode.minFps;
      assert 1000000 == q * e.mode.minFps + r;
      assert (q + 1) * e.mode.minFps == q * e.mode.minFps + e.mode.minFps;
    }
  }

  /** The wait counter: a frame or a stop resets it, otherwise the wait is added, and a full second starts over. */
  lemma CounterExactly(s: State, e: Env)
    ensures var w := Waited(s, e);
            var sum := s.totalWaitMcs + WaitMcs(s.prevPts, e);
            ReadPacket(s, e).0.totalWaitMcs == if w.notified || w.stop || sum >= 1000000 then 0 else sum
  {
    CallsKeepClock(s, e.during);
  }

  // ---------------------------------------------------------------- pacing

  /** The clock does not run backwards and the sleep lasts at least as long as asked. */
  predicate Timely(s: State, e: Env) {
    if e.mode.FixedRate? then e.now + WaitMcs(s.prevPts, e) <= e.end else s.prevPts <= e.end
  }

  ghost predicate TimelyRun(s: State, evs: seq<Event>)
    decreases |evs|
  {
    evs == [] || ((evs[0].Read? ==> Timely(s, evs[0].env)) && TimelyRun(Step(s, evs[0]), evs[1..]))
  }

  /** The spacing a read owes to the one before. */
  function Spacing(mode: Mode): int {
    if mode.FixedRate? then mode.interval else 0
  }

  predicate SensibleModes(evs: seq<Event>) {
    forall k :: 0 <= k < |evs| && evs[k].Read? ==> Spacing(evs[k].env.mode) >= 0
  }

  /** What a successful read returns as timestamp, and the spacing it owes. */
  datatype Post = Post(pts: int, spacing: int)

  function PostOf(s: State, ev: Event): seq<Post> {
    if ev.Read? && ReadPacket(s, ev.env).1.Got? then [Post(ReadPacket(s, ev.env).1.pts, Spacing(ev.env.mode))] else []
  }

  /** The successful reads of a run. */
  function Posts(s: State, evs: seq<Event>): seq<Post>
    decreases |evs|
  {
    if evs == [] then [] else PostOf(s, evs[0]) + Posts(Step(s, evs[0]), evs[1..])
  }

  /** Each keeps its spacing to the one before. */
  ghost predicate Paced(posts: seq<Post>) {
    forall k :: 0 < k < |posts| ==> posts[k].pts - posts[k - 1].pts >= posts[k].spacing
  }

  lemma ReadAdvances(s: State, e: Env)
    requires Spacing(e.mode) >= 0 && Timely(s, e)
    ensures var (t, r) := ReadPacket(s, e);
            t.prevPts >= s.prevPts && (r.Got? ==> r.pts == t.prevPts && r.pts >= s.prevPts + Spacing(e.mode))
  {
    ReadExactly(s, e);
    WaitExactly(s.prevPts, e);
  }

  lemma PacedCons(x: Post, rest: seq<Post>)
    requires Paced(rest) && (rest != [] ==> rest[0].pts >= x.pts + rest[0].spacing)
    ensures Paced([x] + rest)
  {
    var all := [x] + rest;
    forall k | 0 < k < |all| ensures all[k].pts - all[k - 1].pts >= all[k].spacing {
      assert all[k] == rest[k - 1] && (k > 1 ==> all[k - 1] == rest[k - 2]);
    }
  }

  /** Pacing of what reads deliver, over every run and whatever lands in the unlocked waits. */
  lemma {:induction false} RunPaces(s: State, evs: seq<Event>)
    requires SensibleModes(evs) && TimelyRun(s, evs)
    ensures Paced(Posts(s, evs))
    ensures Posts(s, evs) != [] ==> Posts(s, evs)[0].pts >= s.prevPts + Posts(s, evs)[0].spacing
    decreases |evs|
  {
    if evs != [] {
      var next := Step(s, evs[0]);
      var rest := Posts(next, evs[1..]);
      assert SensibleModes(evs[1..]);
      RunPaces(next, evs[1..]);
      if evs[0].Read? {
        ReadAdvances(s, evs[0].env);
        if PostOf(s, evs[0]) != [] {
          PacedCons(PostOf(s, evs[0])[0], rest);
        }
      }
    }
  }

  /** `k` paced posts span at least `k - 1` intervals. */
  lemma {:induction false} PostsSpan(posts: seq<Post>, interval: int)
    requires posts != [] && Paced(posts) && forall k :: 0 <= k < |posts| ==> posts[k].spacing == interval
    ensures posts[|posts| - 1].pts - posts[0].pts >= (|posts| - 1) * interval
    decreases |posts|
  {
    if |posts| > 1 {
      PostsSpan(posts[..|posts| - 1], interval);
      assert (|posts| - 1) * interval == (|posts| - 2) * interval + interval;
    }
  }

  predicate AllFixed(evs: seq<Event>, interval: int) {
    forall k :: 0 <= k < |evs| && evs[k].Read? ==> evs[k].env.mode == FixedRate(interval)
  }

  lemma {:induction false} SpacingsFixed(s: State, evs: seq<Event>, interval: int)
    requires AllFixed(evs, interval)
    ensures forall k :: 0 <= k < |Posts(s, evs)| ==> Posts(s, evs)[k].spacing == interval
    decreases |evs|
  {
    if evs != [] {
      SpacingsFixed(Step(s, evs[0]), evs[1..], interval);
    }
  }

  /** In every fixed-rate run the delivered timestamps are an interval apart, and k of them span at least k - 1 intervals. */
  lemma FixedRateRunSpans(data: Option<Frame>, evs: seq<Event>, interval: int)
    requires interval >= 0 && AllFixed(evs, interval) && TimelyRun(Init(data), evs)
    ensures var posts := Posts(Init(data), evs);
            && (forall k :: 0 < k < |posts| ==> posts[k].pts - posts[k - 1].pts >= interval)
            && (posts != [] ==> posts[|posts| - 1].pts - posts[0].pts >= (|posts| - 1) * interval)
  {
    RunPaces(Init(data), evs);
    SpacingsFixed(Init(data), evs, interval);
    if Posts(Init(data), evs) != [] {
      PostsSpan(Posts(Init(data), evs), interval);
    }
  }
}
