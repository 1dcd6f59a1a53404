/**
 * Display controls from submission to encoded frame: the mailbox of the demuxer feeds the control queue of
 * the transcoder, and each encoded frame takes one control from that queue.
 */
module ControlPipeline {
  import opened Options
  import opened Controls
  import D = VideoDemux
  import T = Transcoder
  import TranscoderSafety

  datatype State = State(demux: D.State, trans: T.State)

  datatype Event =
    | Call(call: D.Call)
    | Wait(before: seq<T.Control>)
    | Iterate(before: seq<T.Control>, env: D.Env, crop: Option<T.Size>, writeOk: bool, buildOk: bool, pushOk: bool,
              frames: seq<T.FrameOut>, tail: T.DrainOut)

  /** What processInput sees of a read. */
  function InputOf(r: D.Result, ev: Event): T.Input
    requires ev.Iterate?
  {
    match r
    case Got(pts, frame, ctrl) => T.Packet(ctrl, ev.crop, ev.writeOk, ev.buildOk, ev.pushOk)
    case _ => T.ReadFails
  }

  function Step(s: State, ev: Event): State {
    match ev
    case Call(c) => State(D.Apply(s.demux, c), s.trans)
    case Wait(before) => if s.trans.stop then s else s.(trans := T.RunOnce(s.trans, T.Waiting(before)))
    case Iterate(before, env, _, _, _, _, frames, tail) =>
      if s.trans.stop then s
      else
        var (d, r) := D.ReadPacket(s.demux, env);
        State(d, T.RunOnce(s.trans, T.Working(before, InputOf(r, ev), frames, tail)))
  }

  function Run(s: State, evs: seq<Event>): State
    decreases |evs|
  {
    if evs == [] then s else Run(Step(s, evs[0]), evs[1..])
  }

  /** The controls attached to encoded frames, in encoding order. */
  function Attached(encoded: seq<T.Encoded>): seq<Ctrl> {
    if encoded == [] then []
    else
      var last := encoded[|encoded| - 1];
      Attached(encoded[..|encoded| - 1]) + if last.ctrl.Some? then [last.ctrl.value] else []
  }

  // ---------------------------------------------------------------- subsequences

  /** `a` is obtained from `b` by leaving elements out. */
  predicate Subsequence<X(==)>(a: seq<X>, b: seq<X>)
    decreases |b|
  {
    a == [] ||
    (b != [] &&
     var b' := b[..|b| - 1];
     (a[|a| - 1] == b[|b| - 1] && Subsequence(a[..|a| - 1], b')) || Subsequence(a, b'))
  }

  lemma {:induction false} SubsequenceExtend<X>(a: seq<X>, b: seq<X>, x: X)
    requires Subsequence(a, b)
    ensures Subsequence(a, b + [x]) && Subsequence(a + [x], b + [x])
  {
  }

  lemma {:induction false} SubsequenceDrop<X>(a: seq<X>, i: nat, b: seq<X>)
    requires i < |a| && Subsequence(a, b)
    ensures Subsequence(a[..i] + a[i + 1..], b)
    decreases |b|
  {
    var b', n := b[..|b| - 1], |a|;
    var c := a[..i] + a[i + 1..];
    if Subsequence(a, b') {
      SubsequenceDrop(a, i, b');
    } else if i == n - 1 {
      assert c == a[..n - 1];
    } else {
      var a' := a[..n - 1];
      SubsequenceDrop(a', i, b');
      assert c[..|c| - 1] == a'[..i] + a'[i + 1..];
      assert c[|c| - 1] == a[n - 1];
    }
  }

  // ---------------------------------------------------------------- in-order delivery

  function Slot(ctrl: Option<Ctrl>): seq<Ctrl> {
    if ctrl.Some? then [ctrl.value] else []
  }

  /** Attached, queued and waiting controls, in this order, are a subsequence of those submitted. */
  ghost predicate InOrder(s: State) {
    Subsequence(Attached(s.trans.encoded) + s.trans.ctrlQueue + Slot(s.demux.ctrl), s.demux.submitted)
  }

  /** A new control takes the place of a waiting one at the end of the line. */
  lemma SendKeeps(line: seq<Ctrl>, d: D.State, c: D.Call)
    requires Subsequence(line + Slot(d.ctrl), d.submitted)
    ensures Subsequence(line + Slot(D.Apply(d, c).ctrl), D.Apply(d, c).submitted)
  {
    if c.Send? && c.ctrl.Some? {
      PrefixSubsequence(line, d.ctrl, d.submitted);
      SubsequenceExtend(line, d.submitted, c.ctrl.value);
    }
  }

  lemma {:induction false} CallsKeep(line: seq<Ctrl>, d: D.State, cs: seq<D.Call>)
    requires Subsequence(line + Slot(d.ctrl), d.submitted)
    ensures Subsequence(line + Slot(D.ApplyAll(d, cs).ctrl), D.ApplyAll(d, cs).submitted)
    decreases |cs|
  {
    if cs != [] {
      SendKeeps(line, d, cs[0]);
      CallsKeep(line, D.Apply(d, cs[0]), cs[1..]);
    }
  }

  /** A read moves the waiting control into the packet, or leaves it; either way the line keeps its order. */
  lemma ReadKeeps(line: seq<Ctrl>, d: D.State, e: D.Env)
    requires Subsequence(line + Slot(d.ctrl), d.submitted)
    ensures var (t, r) := D.ReadPacket(d, e);
            && (r.Got? ==> t.ctrl.None? && Subsequence(line + Slot(r.ctrl), t.submitted))
            && Subsequence(line + Slot(t.ctrl), t.submitted)
  {
    var w := D.Waited(d, e);
    assert Subsequence(line + Slot(w.ctrl), w.submitted) by {
      CallsKeep(line, d, e.during);
    }
    PrefixSubsequence(line, w.ctrl, w.submitted);
    assert line + Slot(None) == line;
  }

  /** The transcoder's part of the line. */
  function Line(t: T.State): seq<Ctrl> {
    Attached(t.encoded) + t.ctrlQueue
  }

  lemma DecodeLine(t: T.State, crop: Option<T.Size>, buildOk: bool, pushOk: bool)
    ensures T.Cropped(t, crop).encoded == t.encoded && T.Cropped(t, crop).ctrlQueue == t.ctrlQueue
    ensures T.Decode(t, buildOk, pushOk).0.encoded == t.encoded && T.Decode(t, buildOk, pushOk).0.ctrlQueue == t.ctrlQueue
  {
  }

  lemma InputShape(t: T.State, input: T.Input)
    ensures var (p, ret) := T.ProcessInput(t, input);
            p.encoded == t.encoded && p.ctrlQueue == t.ctrlQueue + if ret == T.Decoded then Slot(input.ctrl) else []
  {
    match input
    case ReadFails =>
    case StreamNotFound =>
    case EndOfFile(buildOk, pushOk) => DecodeLine(t, None, buildOk, pushOk);
    case Packet(ctrl, crop, writeOk, buildOk, pushOk) =>
      DecodeLine(t, crop, buildOk, pushOk);
      DecodeLine(T.Cropped(t, crop), crop, buildOk, pushOk);
  }

  lemma InputLine(t: T.State, input: T.Input)
    ensures Line(T.ProcessInput(t, input).0) ==
            Line(t) + if T.ProcessInput(t, input).1 == T.Decoded then Slot(input.ctrl) else []
  {
    InputShape(t, input);
  }

  lemma FrameLine(t: T.State, f: T.FrameOut, b: seq<Ctrl>)
    requires Subsequence(Line(t), b)
    ensures Subsequence(Line(T.EncodeFrame(t, f).0), b)
  {
    if t.filter.Some? && t.encoder.Some? {
      var w := T.Written(t, f.write.Ok?);
      TranscoderSafety.DrainDrifts(w.(streamFound := true), f.drain);
      var u := T.EncodeFrame(t, f).0;
      assert u.encoded == w.encoded && u.ctrlQueue == w.ctrlQueue;
      WrittenLine(t, f.write.Ok?, b);
    }
  }

  /** An accepted frame moves the first queued control to the attached ones. */
  lemma WrittenLineSame(t: T.State)
    requires t.filter.Some? && t.encoder.Some?
    ensures Line(T.Written(t, true)) == Line(t)
  {
    var w, attached, q := T.Written(t, true), Attached(t.encoded), t.ctrlQueue;
    assert w.encoded[..|t.encoded|] == t.encoded;
    assert Attached(w.encoded) == attached + Slot(T.FirstControl(q));
    assert Slot(T.FirstControl(q)) + T.LaterControls(q) == q;
    assert Line(w) == attached + (Slot(T.FirstControl(q)) + T.LaterControls(q));
  }

  lemma WrittenLine(t: T.State, ok: bool, b: seq<Ctrl>)
    requires t.filter.Some? && t.encoder.Some? && Subsequence(Line(t), b)
    ensures Subsequence(Line(T.Written(t, ok)), b)
  {
    var w, attached, q := T.Written(t, ok), Attached(t.encoded), t.ctrlQueue;
    if ok {
      WrittenLineSame(t);
    } else if q != [] {
      SubsequenceDrop(Line(t), |attached|, b);
      assert Line(t)[..|attached|] + Line(t)[|attached| + 1..] == attached + q[1..];
    }
  }

  lemma {:induction false} FramesLine(t: T.State, frames: seq<T.FrameOut>, b: seq<Ctrl>)
    requires Subsequence(Line(t), b)
    ensures Subsequence(Line(T.EncodeFrames(t, frames).0), b)
    decreases |frames|
  {
    if frames != [] {
      FrameLine(t, frames[0], b);
      if T.EncodeFrame(t, frames[0]).1.Ok? {
        FramesLine(T.EncodeFrame(t, frames[0]).0, frames[1..], b);
      }
    }
  }

  lemma OutputLine(t: T.State, frames: seq<T.FrameOut>, flush: bool, tail: T.DrainOut, b: seq<Ctrl>)
    requires Subsequence(Line(t), b)
    ensures Subsequence(Line(T.DoOutput(t, frames, flush, tail).0), b)
  {
    if t.filter.Some? {
      assert T.Prepare(t).encoded == t.encoded && T.Prepare(t).ctrlQueue == t.ctrlQueue;
      FramesLine(T.Prepare(t), frames, b);
      TranscoderSafety.DrainDrifts(T.EncodeFrames(T.Prepare(t), frames).0, tail);
    }
  }

  /** An iteration with a packet queues its control, then only takes controls from the front of the queue. */
  lemma PacketIterationLine(t: T.State, it: T.Iteration, b: seq<Ctrl>)
    requires it.Working? && it.input.Packet? && Subsequence(Line(t) + Slot(it.input.ctrl), b) && Subsequence(Line(t), b)
    ensures Subsequence(Line(T.RunOnce(t, it)), b)
  {
    var t0 := T.ApplyAll(t, it.before);
    TranscoderSafety.ControlsDrift(t, it.before);
    InputLine(t0, it.input);
    assert Line(t0) + [] == Line(t);
    WorkedLine(T.ProcessInput(t0, it.input), it.frames, it.tail, b);
  }

  lemma WorkedLine(read: (T.State, T.InputRet), frames: seq<T.FrameOut>, tail: T.DrainOut, b: seq<Ctrl>)
    requires Subsequence(Line(read.0), b)
    ensures Subsequence(Line(T.Worked(read, frames, tail)), b)
  {
    OutputLine(read.0, frames, read.1 == T.Ended, tail, b);
  }

  lemma FailedIterationLine(t: T.State, it: T.Iteration)
    requires it.Waiting? || it.input.ReadFails?
    ensures Line(T.RunOnce(t, it)) == Line(t)
  {
    TranscoderSafety.ControlsDrift(t, it.before);
  }

  lemma PrefixSubsequence(line: seq<Ctrl>, ctrl: Option<Ctrl>, b: seq<Ctrl>)
    requires Subsequence(line + Slot(ctrl), b)
    ensures Subsequence(line, b)
  {
    var whole := line + Slot(ctrl);
    if ctrl.Some? {
      SubsequenceDrop(whole, |line|, b);
      assert whole[..|line|] + whole[|line| + 1..] == line;
    } else {
      assert whole == line;
    }
  }

  lemma StepKeepsOrder(s: State, ev: Event)
    requires InOrder(s)
    ensures InOrder(Step(s, ev))
  {
    var line := Line(s.trans);
    match ev {
      case Call(c) => SendKeeps(line, s.demux, c);
      case Wait(before) => FailedIterationLine(s.trans, T.Waiting(before));
      case Iterate(before, env, _, _, _, _, frames, tail) =>
        if !s.trans.stop {
          ReadKeeps(line, s.demux, env);
          var (d, r) := D.ReadPacket(s.demux, env);
          var it := T.Working(before, InputOf(r, ev), frames, tail);
          if r.Got? {
            PrefixSubsequence(line, r.ctrl, d.submitted);
            PacketIterationLine(s.trans, it, d.submitted);
            assert Line(T.RunOnce(s.trans, it)) + Slot(None) == Line(T.RunOnce(s.trans, it));
          } else {
            FailedIterationLine(s.trans, it);
          }
        }
    }
  }

  lemma {:induction false} RunKeepsOrder(s: State, evs: seq<Event>)
    requires InOrder(s)
    ensures InOrder(Run(s, evs))
    decreases |evs|
  {
    if evs != [] {
      StepKeepsOrder(s, evs[0]);
      RunKeepsOrder(Step(s, evs[0]), evs[1..]);
    }
  }

  lemma {:induction false} FrontSubsequence(a: seq<Ctrl>, rest: seq<Ctrl>, b: seq<Ctrl>)
    requires Subsequence(a + rest, b)
    ensures Subsequence(a, b)
    decreases |rest|
  {
    if rest == [] {
      assert a + rest == a;
    } else {
      var n := |a + rest| - 1;
      SubsequenceDrop(a + rest, n, b);
      assert (a + rest)[..n] + (a + rest)[n + 1..] == a + rest[..|rest| - 1];
      FrontSubsequence(a, rest[..|rest| - 1], b);
    }
  }

  /**
   * End to end: the controls attached to encoded frames, those of the final flush included, are an in-order,
   * repetition-free choice of those submitted.
   */
  lemma AttachedInSubmissionOrder(
      data: Option<D.Frame>, cfg: T.Config, size: T.Size, evs: seq<Event>, frames: seq<T.FrameOut>, tail: T.DrainOut)
    ensures var s := Run(State(D.Init(data), T.Started(cfg, size)), evs);
            && Subsequence(Attached(s.trans.encoded), s.demux.submitted)
            && Subsequence(Attached(T.Finish(s.trans, frames, tail).encoded), s.demux.submitted)
  {
    var s0 := State(D.Init(data), T.Started(cfg, size));
    assert InOrder(s0);
    RunKeepsOrder(s0, evs);
    var s := Run(s0, evs);
    PrefixSubsequence(Line(s.trans), s.demux.ctrl, s.demux.submitted);
    FrontSubsequence(Attached(s.trans.encoded), s.trans.ctrlQueue, s.demux.submitted);
    OutputLine(s.trans, frames, true, tail, s.demux.submitted);
    var t := T.Finish(s.trans, frames, tail);
    FrontSubsequence(Attached(t.encoded), t.ctrlQueue, s.demux.submitted);
  }
}
