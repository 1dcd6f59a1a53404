/**
 * No display control disappears: each one submitted is attached to an encoded frame, queued, waiting, or lost
 * in one of four recorded ways. Without losses the line of controls is exactly what was submitted.
 */
module ControlConservation {
  import opened Options
  import opened Controls
  import D = VideoDemux
  import T = Transcoder
  import TranscoderSafety
  import opened ControlPipeline

  /** Replaced in the mailbox before a read, dropped with a failed packet copy, by processInput, or by the encoder. */
  datatype Loss = Replaced(ctrl: Ctrl) | CopyFailed(ctrl: Ctrl) | NotDecoded(ctrl: Ctrl) | NotEncoded(ctrl: Ctrl)

  /** How often `x` is among the lost. */
  function LostCount(losses: seq<Loss>, x: Ctrl): nat {
    if losses == [] then 0
    else LostCount(losses[..|losses| - 1], x) + if losses[|losses| - 1].ctrl == x then 1 else 0
  }

  lemma {:induction false} LostAppend(a: seq<Loss>, b: seq<Loss>, x: Ctrl)
    ensures LostCount(a + b, x) == LostCount(a, x) + LostCount(b, x)
    decreases |b|
  {
    if b == [] {
      assert a + b == a;
    } else {
      assert (a + b)[..|a + b| - 1] == a + b[..|b| - 1];
      LostAppend(a, b[..|b| - 1], x);
    }
  }

  function Times(s: seq<Ctrl>, x: Ctrl): nat {
    multiset(s)[x]
  }

  lemma TimesAppend(a: seq<Ctrl>, b: seq<Ctrl>, x: Ctrl)
    ensures Times(a + b, x) == Times(a, x) + Times(b, x)
  {
  }

  // ---------------------------------------------------------------- what each step loses

  function SendLoses(d: D.State, c: D.Call): seq<Loss> {
    if c.Send? && c.ctrl.Some? && d.ctrl.Some? then [Replaced(d.ctrl.value)] else []
  }

  function CallsLose(d: D.State, cs: seq<D.Call>): seq<Loss>
    decreases |cs|
  {
    if cs == [] then [] else SendLoses(d, cs[0]) + CallsLose(D.Apply(d, cs[0]), cs[1..])
  }

  function ReadLoses(d: D.State, e: D.Env): seq<Loss> {
    var w := D.Waited(d, e);
    (if D.Unlocks(d, e) then CallsLose(d, e.during) else [])
    + if w.data.Some? && !e.refOk && w.ctrl.Some? then [CopyFailed(w.ctrl.value)] else []
  }

  function InputLoses(t: T.State, input: T.Input): seq<Loss> {
    if input.Packet? && input.ctrl.Some? && T.ProcessInput(t, input).1 != T.Decoded then [NotDecoded(input.ctrl.value)]
    else []
  }

  function FrameLoses(t: T.State, f: T.FrameOut): seq<Loss> {
    if t.filter.Some? && t.encoder.Some? && f.write.Fail? && t.ctrlQueue != [] then [NotEncoded(t.ctrlQueue[0])] else []
  }

  function FramesLose(t: T.State, frames: seq<T.FrameOut>): seq<Loss>
    decreases |frames|
  {
    if frames == [] then []
    else
      FrameLoses(t, frames[0])
      + if T.EncodeFrame(t, frames[0]).1.Fail? then [] else FramesLose(T.EncodeFrame(t, frames[0]).0, frames[1..])
  }

  function OutputLoses(t: T.State, frames: seq<T.FrameOut>): seq<Loss> {
    if t.filter.None? then [] else FramesLose(T.Prepare(t), frames)
  }

  function IterationLoses(t: T.State, it: T.Iteration): seq<Loss> {
    if it.Waiting? then []
    else
      var t0 := T.ApplyAll(t, it.before);
      var (t1, ret) := T.ProcessInput(t0, it.input);
      InputLoses(t0, it.input) + if ret in {T.Decoded, T.Ended} then OutputLoses(t1, it.frames) else []
  }

  function StepLoses(s: State, ev: Event): seq<Loss> {
    match ev
    case Call(c) => SendLoses(s.demux, c)
    case Wait(_) => []
    case Iterate(before, env, _, _, _, _, frames, tail) =>
      if s.trans.stop then []
      else
        var (d, r) := D.ReadPacket(s.demux, env);
        ReadLoses(s.demux, env) + IterationLoses(s.trans, T.Working(before, InputOf(r, ev), frames, tail))
  }

  function RunLoses(s: State, evs: seq<Event>): seq<Loss>
    decreases |evs|
  {
    if evs == [] then [] else StepLoses(s, evs[0]) + RunLoses(Step(s, evs[0]), evs[1..])
  }

  // ---------------------------------------------------------------- the mailbox

  function Held(ctrl: Option<Ctrl>, x: Ctrl): nat {
    if ctrl == Some(x) then 1 else 0
  }

  lemma SlotTimes(ctrl: Option<Ctrl>, x: Ctrl)
    ensures Times(Slot(ctrl), x) == Held(ctrl, x)
  {
  }

  lemma SendBalances(d: D.State, c: D.Call, x: Ctrl)
    ensures var e := D.Apply(d, c);
            Times(e.submitted, x) + Held(d.ctrl, x) ==
              Times(d.submitted, x) + Held(e.ctrl, x) + LostCount(SendLoses(d, c), x)
  {
    if c.Send? && c.ctrl.Some? {
      TimesAppend(d.submitted, [c.ctrl.value], x);
    }
  }

  lemma {:induction false} CallsBalance(d: D.State, cs: seq<D.Call>, x: Ctrl)
    ensures var e := D.ApplyAll(d, cs);
            Times(e.submitted, x) + Held(d.ctrl, x) ==
              Times(d.submitted, x) + Held(e.ctrl, x) + LostCount(CallsLose(d, cs), x)
    decreases |cs|
  {
    if cs != [] {
      SendBalances(d, cs[0], x);
      CallsBalance(D.Apply(d, cs[0]), cs[1..], x);
      LostAppend(SendLoses(d, cs[0]), CallsLose(D.Apply(d, cs[0]), cs[1..]), x);
    }
  }

  /** A read hands its control on, keeps it, or loses it. */
  lemma ReadBalances(d: D.State, e: D.Env, x: Ctrl)
    ensures var (t, r) := D.ReadPacket(d, e);
            Times(t.submitted, x) + Held(d.ctrl, x) ==
              Times(d.submitted, x) + Held(t.ctrl, x) + (if r.Got? then Held(r.ctrl, x) else 0)
              + LostCount(ReadLoses(d, e), x)
  {
    var w := D.Waited(d, e);
    var asleep := if D.Unlocks(d, e) then CallsLose(d, e.during) else [];
    var copy := if w.data.Some? && !e.refOk && w.ctrl.Some? then [CopyFailed(w.ctrl.value)] else [];
    if D.Unlocks(d, e) {
      CallsBalance(d, e.during, x);
    }
    assert Times(w.submitted, x) + Held(d.ctrl, x) == Times(d.submitted, x) + Held(w.ctrl, x) + LostCount(asleep, x);
    LostAppend(asleep, copy, x);
  }

  // ---------------------------------------------------------------- the transcoder

  /** How often `x` is attached or queued. */
  function InLine(t: T.State, x: Ctrl): nat {
    Times(Line(t), x)
  }

  lemma InputBalances(t: T.State, input: T.Input, x: Ctrl)
    ensures InLine(T.ProcessInput(t, input).0, x) + LostCount(InputLoses(t, input), x) ==
            InLine(t, x) + if input.Packet? then Held(input.ctrl, x) else 0
  {
    InputLine(t, input);
    if T.ProcessInput(t, input).1 == T.Decoded {
      TimesAppend(Line(t), Slot(input.ctrl), x);
      SlotTimes(input.ctrl, x);
    } else {
      TimesAppend(Line(t), [], x);
    }
  }

  lemma WrittenBalances(t: T.State, ok: bool, x: Ctrl)
    requires t.filter.Some? && t.encoder.Some?
    ensures InLine(T.Written(t, ok), x) + (if ok then 0 else Held(T.FirstControl(t.ctrlQueue), x)) == InLine(t, x)
  {
    if ok {
      WrittenLineSame(t);
    } else {
      FirstDropped(Attached(t.encoded), t.ctrlQueue, x);
    }
  }

  lemma FirstDropped(attached: seq<Ctrl>, q: seq<Ctrl>, x: Ctrl)
    ensures Times(attached + T.LaterControls(q), x) + Held(T.FirstControl(q), x) == Times(attached + q, x)
  {
    TimesAppend(attached, q, x);
    TimesAppend(attached, T.LaterControls(q), x);
    if q != [] {
      TimesAppend([q[0]], q[1..], x);
      assert q == [q[0]] + q[1..];
    }
  }

  lemma FrameBalances(t: T.State, f: T.FrameOut, x: Ctrl)
    ensures InLine(T.EncodeFrame(t, f).0, x) + LostCount(FrameLoses(t, f), x) == InLine(t, x)
  {
    if t.filter.Some? && t.encoder.Some? {
      var w := T.Written(t, f.write.Ok?);
      TranscoderSafety.DrainDrifts(w.(streamFound := true), f.drain);
      var u := T.EncodeFrame(t, f).0;
      assert u.encoded == w.encoded && u.ctrlQueue == w.ctrlQueue;
      WrittenBalances(t, f.write.Ok?, x);
    }
  }

  lemma {:induction false} FramesBalance(t: T.State, frames: seq<T.FrameOut>, x: Ctrl)
    ensures InLine(T.EncodeFrames(t, frames).0, x) + LostCount(FramesLose(t, frames), x) == InLine(t, x)
    decreases |frames|
  {
    if frames != [] {
      var (u, ret) := T.EncodeFrame(t, frames[0]);
      FrameBalances(t, frames[0], x);
      var rest := if ret.Fail? then [] else FramesLose(u, frames[1..]);
      LostAppend(FrameLoses(t, frames[0]), rest, x);
      if ret.Ok? {
        FramesBalance(u, frames[1..], x);
      }
    }
  }

  lemma OutputBalances(t: T.State, frames: seq<T.FrameOut>, flush: bool, tail: T.DrainOut, x: Ctrl)
    ensures InLine(T.DoOutput(t, frames, flush, tail).0, x) + LostCount(OutputLoses(t, frames), x) == InLine(t, x)
  {
    if t.filter.Some? {
      PrepareKeepsLine(t);
      FramesBalance(T.Prepare(t), frames, x);
      DrainKeepsLine(T.EncodeFrames(T.Prepare(t), frames).0, tail);
    }
  }

  lemma PrepareKeepsLine(t: T.State)
    requires t.filter.Some?
    ensures Line(T.Prepare(t)) == Line(t)
  {
  }

  lemma DrainKeepsLine(t: T.State, d: T.DrainOut)
    ensures Line(T.Drain(t, d).0) == Line(t)
  {
    TranscoderSafety.DrainDrifts(t, d);
  }

  lemma WorkedBalances(read: (T.State, T.InputRet), frames: seq<T.FrameOut>, tail: T.DrainOut, x: Ctrl)
    ensures var lost := if read.1 in {T.Decoded, T.Ended} then OutputLoses(read.0, frames) else [];
            InLine(T.Worked(read, frames, tail), x) + LostCount(lost, x) == InLine(read.0, x)
  {
    OutputBalances(read.0, frames, read.1 == T.Ended, tail, x);
  }

  lemma IterationBalances(t: T.State, it: T.Iteration, x: Ctrl)
    ensures InLine(T.RunOnce(t, it), x) + LostCount(IterationLoses(t, it), x) ==
            InLine(t, x) + if it.Working? && it.input.Packet? then Held(it.input.ctrl, x) else 0
  {
    var t0 := T.ApplyAll(t, it.before);
    TranscoderSafety.ControlsDrift(t, it.before);
    assert Line(t0) == Line(t);
    if it.Working? {
      var read := T.ProcessInput(t0, it.input);
      InputBalances(t0, it.input, x);
      WorkedBalances(read, it.frames, it.tail, x);
      LostAppend(InputLoses(t0, it.input), if read.1 in {T.Decoded, T.Ended} then OutputLoses(read.0, it.frames) else [], x);
    }
  }

  // ---------------------------------------------------------------- whole runs

  /** How many submissions of `x` are no longer in the line nor waiting. */
  function Missing(s: State, x: Ctrl): int {
    Times(s.demux.submitted, x) - InLine(s.trans, x) - Held(s.demux.ctrl, x)
  }

  lemma IterateBalances(s: State, ev: Event, x: Ctrl)
    requires ev.Iterate? && !s.trans.stop
    ensures Missing(Step(s, ev), x) == Missing(s, x) + LostCount(StepLoses(s, ev), x)
  {
    var (d, r) := D.ReadPacket(s.demux, ev.env);
    var it := T.Working(ev.before, InputOf(r, ev), ev.frames, ev.tail);
    ReadBalances(s.demux, ev.env, x);
    IterationBalances(s.trans, it, x);
    LostAppend(ReadLoses(s.demux, ev.env), IterationLoses(s.trans, it), x);
  }

  lemma StepBalances(s: State, ev: Event, x: Ctrl)
    ensures Missing(Step(s, ev), x) == Missing(s, x) + LostCount(StepLoses(s, ev), x)
  {
    match ev {
      case Call(c) => SendBalances(s.demux, c, x);
      case Wait(before) => IterationBalances(s.trans, T.Waiting(before), x);
      case Iterate(_, _, _, _, _, _, _, _) =>
        if !s.trans.stop {
          IterateBalances(s, ev, x);
        }
    }
  }

  lemma {:induction false} RunBalances(s: State, evs: seq<Event>, x: Ctrl)
    ensures Missing(Run(s, evs), x) == Missing(s, x) + LostCount(RunLoses(s, evs), x)
    decreases |evs|
  {
    if evs != [] {
      var next := Step(s, evs[0]);
      StepBalances(s, evs[0], x);
      RunBalances(next, evs[1..], x);
      LostAppend(StepLoses(s, evs[0]), RunLoses(next, evs[1..]), x);
    }
  }

  function Started(data: Option<D.Frame>, cfg: T.Config, size: T.Size): State {
    State(D.Init(data), T.Started(cfg, size))
  }

  /**
   * Conservation from the start to the end of the final flush: every control is submitted exactly as often as it
   * is attached, queued, waiting or lost.
   */
  lemma EveryControlAccounted(
      data: Option<D.Frame>, cfg: T.Config, size: T.Size, evs: seq<Event>, frames: seq<T.FrameOut>, tail: T.DrainOut, x: Ctrl)
    ensures var s0 := Started(data, cfg, size);
            var s := Run(s0, evs);
            var t := T.Finish(s.trans, frames, tail);
            Times(s.demux.submitted, x) ==
              Times(Attached(t.encoded), x) + Times(t.ctrlQueue, x) + Times(Slot(s.demux.ctrl), x)
              + LostCount(RunLoses(s0, evs) + OutputLoses(s.trans, frames), x)
  {
    var s0 := Started(data, cfg, size);
    var s := Run(s0, evs);
    assert Line(s0.trans) == [];
    RunBalances(s0, evs, x);
    OutputBalances(s.trans, frames, true, tail, x);
    var t := T.Finish(s.trans, frames, tail);
    TimesAppend(Attached(t.encoded), t.ctrlQueue, x);
    SlotTimes(s.demux.ctrl, x);
    LostAppend(RunLoses(s0, evs), OutputLoses(s.trans, frames), x);
  }

  // ---------------------------------------------------------------- runs without losses

  lemma {:induction false} SubsequenceLength(a: seq<Ctrl>, b: seq<Ctrl>)
    requires Subsequence(a, b)
    ensures |a| <= |b| && (|a| == |b| ==> a == b)
    decreases |b|
  {
    if a != [] {
      var a', b' := a[..|a| - 1], b[..|b| - 1];
      if Subsequence(a, b') {
        SubsequenceLength(a, b');
      } else {
        SubsequenceLength(a', b');
        assert |a'| == |b'| ==> a == a' + [a[|a| - 1]] && b == b' + [b[|b| - 1]];
      }
    }
  }

  /** As long as nothing is lost, attached, queued and waiting controls are exactly those submitted, in order. */
  lemma LosslessInOrder(data: Option<D.Frame>, cfg: T.Config, size: T.Size, evs: seq<Event>)
    requires RunLoses(Started(data, cfg, size), evs) == []
    ensures var s := Run(Started(data, cfg, size), evs);
            Attached(s.trans.encoded) + s.trans.ctrlQueue + Slot(s.demux.ctrl) == s.demux.submitted
  {
    var s0 := Started(data, cfg, size);
    var s := Run(s0, evs);
    var line := Line(s.trans) + Slot(s.demux.ctrl);
    assert InOrder(s0);
    RunKeepsOrder(s0, evs);
    forall x ensures multiset(line)[x] == multiset(s.demux.submitted)[x] {
      assert Line(s0.trans) == [];
      RunBalances(s0, evs, x);
      TimesAppend(Line(s.trans), Slot(s.demux.ctrl), x);
      SlotTimes(s.demux.ctrl, x);
    }
    assert multiset(line) == multiset(s.demux.submitted);
    assert |line| == |multiset(line)| && |s.demux.submitted| == |multiset(s.demux.submitted)|;
    SubsequenceLength(line, s.demux.submitted);
  }
}
