/**
 * The transcoder loop for one video stream: control calls raise flags, `decode` rebuilds the filter and
 * `doOutput` rebuilds the encoder from the same flags, and every encoded frame carries at most one queued
 * display control. Outcomes of FFmpeg calls are inputs. Control calls land between iterations, at the
 * connection check, at the crop check before decoding, and inside the mux write.
 */
module Transcoder {
  import opened Options
  import opened Controls

  datatype CodecId = NoCodec | H264 | HEVC | AV1
  datatype Plugin = Vaapi | Qsv
  datatype Size = Size(width: int, height: int)

  /** An encoder or option name: one of the standard codec-plugin names, or any other text. */
  datatype Name = Standard(codec: CodecId, plugin: Plugin) | Text(text: string)

  /** Profile and level are what the output properties held when it was built. */
  datatype Encoder = Encoder(size: Size, name: Name, profile: Option<Name>, level: Option<Name>)

  /** The output properties the loop itself reads or writes; every other key is `Other`. */
  datatype Key = KeyC | KeyCodec | KeyProfile | KeyLevel | Other(name: string)

  type Props = map<Key, Name>

  /** History of one encoded frame, with the build numbers of the filter and the encoder that made it. */
  datatype Encoded = Encoded(
    filterSize: Size, encoderSize: Size, encoderName: Name, ctrl: Option<Ctrl>, filterBuild: nat, encoderBuild: nat)

  datatype Flags = Flags(hwError: bool, resolution: bool, codec: bool, profile: bool)

  /** `streamerCodec` is the owning streamer's copy of the codec id. */
  datatype Config = Config(codec: CodecId, plugin: Plugin, props: Props, streamerCodec: CodecId)

  /**
   * `accepted`, the build counters and `encoded` are history: whether any resolution change was accepted, how
   * many filters and encoders have been built, and the frames encoded so far.
   */
  datatype State = State(
    flags: Flags, newSize: Size, accepted: bool, cfg: Config,
    decSize: Size, filter: Option<Size>, encoder: Option<Encoder>,
    ctrlQueue: seq<Ctrl>, streamFound: bool, stop: bool,
    filterBuild: nat, encoderBuild: nat, encoded: seq<Encoded>)

  datatype Control =
    | ChangeResolution(width: int, height: int)
    | ChangeCodec(codec: CodecId)
    | ChangeProfileLevel(profile: Option<Name>, level: Option<Name>)  // the names found for the given values

  /** An end of file before the first packet, when there is no decoder to flush, acts as `ReadFails`. */
  datatype Input =
    | ReadFails
    | StreamNotFound
    | EndOfFile(buildOk: bool, pushOk: bool)
    | Packet(ctrl: Option<Ctrl>, crop: Option<Size>, writeOk: bool, buildOk: bool, pushOk: bool)

  /** How processInput ended: with a decoded packet, to be tried again, at the end of the input, or for good. */
  datatype InputRet = Decoded | Retry | Ended | Failed

  /** A call's result; a failure is a hardware error if it is AVERROR_EXIT or EIO. */
  datatype Ret = Ok | Fail(hardware: bool)

  /** One packet read back from the encoder: control calls arriving in the mux write, and its result. */
  datatype PacketOut = PacketOut(controls: seq<Control>, mux: Ret)

  /**
   * What comes out after a write: the encoder's packets, an EIO at their end, and the screen capture, which
   * is `Ok` and empty when none is due.
   */
  datatype DrainOut = DrainOut(packets: seq<PacketOut>, readEio: bool, captureWrite: Ret, capture: seq<PacketOut>)

  /** One frame popped from the filter. */
  datatype FrameOut = FrameOut(write: Ret, addStream: Ret, drain: DrainOut)

  /** A round of the loop: without a client or permission to encode it only serves control calls. */
  datatype Iteration =
    | Waiting(before: seq<Control>)
    | Working(before: seq<Control>, input: Input, frames: seq<FrameOut>, tail: DrainOut)

  // ---------------------------------------------------------------- names and properties

  /** The encoder that implements a codec on a plugin; no codec means H.264. */
  function EncoderName(c: CodecId, p: Plugin): Name {
    Standard(if c == NoCodec then H264 else c, p)
  }

  /** getOutOptVal("c", "codec", default): the encoder name doOutput asks for. */
  function ChosenEncoder(cfg: Config): Name {
    if KeyC in cfg.props then cfg.props[KeyC]
    else if KeyCodec in cfg.props then cfg.props[KeyCodec]
    else EncoderName(cfg.codec, cfg.plugin)
  }

  function Lookup(props: Props, key: Key): Option<Name> {
    if key in props then Some(props[key]) else None
  }

  function NewEncoder(cfg: Config, size: Size): Encoder {
    Encoder(size, ChosenEncoder(cfg), Lookup(cfg.props, KeyProfile), Lookup(cfg.props, KeyLevel))
  }

  // ---------------------------------------------------------------- control calls

  predicate Acceptable(width: int, height: int) {
    32 <= width <= 4096 && 32 <= height <= 4096
  }

  function SwitchCodec(cfg: Config, codec: CodecId): Config {
    if cfg.codec == codec then cfg.(streamerCodec := codec)
    else Config(codec, cfg.plugin, (cfg.props - {KeyProfile, KeyLevel})[KeyC := EncoderName(codec, cfg.plugin)], codec)
  }

  function SetSome(props: Props, key: Key, value: Option<Name>): Props {
    if value.Some? then props[key := value.value] else props
  }

  function Apply(s: State, c: Control): State {
    match c
    case ChangeResolution(w, h) =>
      if Acceptable(w, h) then s.(flags := s.flags.(resolution := true), newSize := Size(w, h), accepted := true) else s
    case ChangeCodec(codec) =>
      if codec != H264 && codec != HEVC then s
      else s.(flags := s.flags.(codec := s.flags.codec || codec != s.cfg.codec), cfg := SwitchCodec(s.cfg, codec))
    case ChangeProfileLevel(profile, level) =>
      if profile.None? && level.None? then s
      else s.(flags := s.flags.(profile := true),
              cfg := s.cfg.(props := SetSome(SetSome(s.cfg.props, KeyProfile, profile), KeyLevel, level)))
  }

  function ApplyAll(s: State, cs: seq<Control>): State
    decreases |cs|
  {
    if cs == [] then s else ApplyAll(Apply(s, cs[0]), cs[1..])
  }

  // ---------------------------------------------------------------- decode

  function DropFilter(s: State): State {
    if s.flags.hwError || s.flags.resolution then s.(filter := None) else s
  }

  /** A missing filter is built at the decoder's size, which a pending resolution change replaces first. */
  function BuildFilter(s: State): State {
    if s.filter.Some? then s
    else
      var size := if s.flags.resolution then s.newSize else s.decSize;
      s.(decSize := size, filter := Some(size), filterBuild := s.filterBuild + 1)
  }

  function Decode(s: State, buildOk: bool, pushOk: bool): (State, bool) {
    var s1 := DropFilter(s);
    if s1.filter.None? && !buildOk then (s1, false) else (BuildFilter(s1), pushOk)
  }

  function Cropped(s: State, crop: Option<Size>): State {
    if crop.Some? then Apply(s, ChangeResolution(crop.value.width, crop.value.height)) else s
  }

  /** At the end of the input the decoder is flushed into the filter, whatever comes of it. */
  function ProcessInput(s: State, input: Input): (State, InputRet) {
    match input
    case ReadFails => (s, Failed)
    case StreamNotFound => (s, Retry)
    case EndOfFile(buildOk, pushOk) => (Decode(s, buildOk, pushOk).0, Ended)
    case Packet(ctrl, crop, writeOk, buildOk, pushOk) =>
      var s1 := Cropped(s, crop);
      if !writeOk then (s1, Failed)
      else
        var (s2, ok) := Decode(s1, buildOk, pushOk);
        if !ok then (s2, Failed)
        else if ctrl.Some? then (s2.(ctrlQueue := s2.ctrlQueue + [ctrl.value]), Decoded)
        else (s2, Decoded)
  }

  // ---------------------------------------------------------------- doOutput

  const NO_FLAGS := Flags(false, false, false, false)

  function DropEncoder(s: State): State {
    if s.flags != NO_FLAGS then s.(encoder := None, flags := NO_FLAGS) else s
  }

  function BuildEncoder(s: State): State
    requires s.filter.Some?
  {
    if s.encoder.Some? then s
    else s.(encoder := Some(NewEncoder(s.cfg, s.filter.value)), encoderBuild := s.encoderBuild + 1)
  }

  /** The flag check and the rebuild at the head of doOutput. */
  function Prepare(s: State): State
    requires s.filter.Some?
  {
    BuildEncoder(DropEncoder(s))
  }

  function WritePackets(s: State, packets: seq<PacketOut>): (State, Ret)
    decreases |packets|
  {
    if packets == [] then (s, Ok)
    else
      var s1 := ApplyAll(s, packets[0].controls);
      if packets[0].mux.Fail? then (s1, packets[0].mux) else WritePackets(s1, packets[1..])
  }

  /** Packets to the mux, then the screen capture to the mux; the first failure ends it. */
  function Drain(s: State, d: DrainOut): (State, Ret) {
    var (s1, ret) := WritePackets(s, d.packets);
    if ret.Fail? then (s1, ret)
    else if d.readEio then (s1, Fail(true))
    else if d.captureWrite.Fail? then (s1, d.captureWrite)
    else WritePackets(s1, d.capture)
  }

  function FirstControl(queue: seq<Ctrl>): Option<Ctrl> {
    if queue == [] then None else Some(queue[0])
  }

  function LaterControls(queue: seq<Ctrl>): seq<Ctrl> {
    if queue == [] then [] else queue[1..]
  }

  /** dynamicSetEncParameters takes one queued control; a frame the encoder rejects loses it. */
  function Written(s: State, ok: bool): State
    requires s.filter.Some? && s.encoder.Some?
  {
    s.(ctrlQueue := LaterControls(s.ctrlQueue),
       encoded := if !ok then s.encoded
                  else s.encoded + [Encoded(s.filter.value, s.encoder.value.size, s.encoder.value.name,
                                            FirstControl(s.ctrlQueue), s.filterBuild, s.encoderBuild)])
  }

  function EncodeFrame(s: State, f: FrameOut): (State, Ret) {
    if s.filter.None? || s.encoder.None? then (s, Ok)
    else
      var s1 := Written(s, f.write.Ok?);
      if f.write.Fail? then (s1, f.write)
      else if !s1.streamFound && f.addStream.Fail? then (s1, f.addStream)
      else Drain(s1.(streamFound := true), f.drain)
  }

  function EncodeFrames(s: State, frames: seq<FrameOut>): (State, Ret)
    decreases |frames|
  {
    if frames == [] then (s, Ok)
    else
      var (s1, ret) := EncodeFrame(s, frames[0]);
      if ret.Fail? then (s1, ret) else EncodeFrames(s1, frames[1..])
  }

  /** doOutput; when flushing, `tail` is what the encoder still gives after the last frame. */
  function DoOutput(s: State, frames: seq<FrameOut>, flush: bool, tail: DrainOut): (State, Ret) {
    if s.filter.None? then (s, Ok)
    else
      var (s1, ret) := EncodeFrames(Prepare(s), frames);
      if ret.Ok? && flush then Drain(s1, tail) else (s1, ret)
  }

  // ---------------------------------------------------------------- the loop

  function RunOnce(s: State, it: Iteration): State {
    match it
    case Waiting(before) => ApplyAll(s, before)
    case Working(before, input, frames, tail) => Worked(ProcessInput(ApplyAll(s, before), input), frames, tail)
  }

  /** What run does with the result of processInput; the end of the input is flushed, and stops the loop. */
  function Worked(read: (State, InputRet), frames: seq<FrameOut>, tail: DrainOut): State {
    var s := read.0;
    match read.1
    case Retry => s
    case Failed => s.(stop := true)
    case Ended => DoOutput(s, frames, true, tail).0.(stop := true)
    case Decoded =>
      var (s1, ret) := DoOutput(s, frames, false, tail);
      if ret == Fail(true) then s1.(flags := s1.flags.(hwError := true)) else s1
  }

  /** The thread's loop up to the moment it sees the stop flag. */
  function Run(s: State, its: seq<Iteration>): State
    decreases |its|
  {
    if its == [] || s.stop then s else Run(RunOnce(s, its[0]), its[1..])
  }

  /** The flushing output after the loop. */
  function Finish(s: State, frames: seq<FrameOut>, tail: DrainOut): State {
    DoOutput(s, frames, true, tail).0
  }

  // ---------------------------------------------------------------- the class

  class CTransCoder {
    var isEncHWError: bool
    var isResolutionChange: bool
    var isCodecChange: bool
    var isProfileLevelChange: bool
    var newSize: Size
    var decSize: Size
    var filter: Option<Size>
    var encoder: Option<Encoder>
    var config: Config
    var dispCtrlQueue: seq<Ctrl>
    var streamFound: bool
    var stop: bool
    ghost var accepted: bool
    ghost var filterBuild: nat
    ghost var encoderBuild: nat
    ghost var encoded: seq<Encoded>

    ghost function Abs(): State
      reads this
    {
      State(Flags(isEncHWError, isResolutionChange, isCodecChange, isProfileLevelChange), newSize, accepted, config,
            decSize, filter, encoder, dispCtrlQueue, streamFound, stop, filterBuild, encoderBuild, encoded)
    }

    constructor (cfg: Config, size: Size)
      ensures Abs() == Started(cfg, size)
    {
      isEncHWError, isResolutionChange, isCodecChange, isProfileLevelChange := false, false, false, false;
      newSize, decSize, filter, encoder := Size(0, 0), size, None, None;
      config, dispCtrlQueue, streamFound, stop := cfg, [], false, false;
      accepted, filterBuild, encoderBuild, encoded := false, 0, 0, [];
    }

    method ChangeResolutionCall(w: int, h: int)
      modifies this
      ensures Abs() == Apply(old(Abs()), ChangeResolution(w, h))
    {
      if Acceptable(w, h) {
        isResolutionChange := true;
        newSize := Size(w, h);
        accepted := true;
      }
    }

    method ChangeCodecCall(codec: CodecId)
      modifies this
      ensures Abs() == Apply(old(Abs()), ChangeCodec(codec))
    {
      if codec == H264 || codec == HEVC {
        if config.codec != codec {
          isCodecChange := true;
        }
        config := SwitchCodec(config, codec);
      }
    }

    method ChangeEncoderProfileLevel(profile: Option<Name>, level: Option<Name>)
      modifies this
      ensures Abs() == Apply(old(Abs()), ChangeProfileLevel(profile, level))
    {
      if profile.Some? || level.Some? {
        config := config.(props := SetSome(SetSome(config.props, KeyProfile, profile), KeyLevel, level));
        isProfileLevelChange := true;
      }
    }

    method Control(c: Control)
      modifies this
      ensures Abs() == Apply(old(Abs()), c)
    {
      match c {
        case ChangeResolution(w, h) => ChangeResolutionCall(w, h);
        case ChangeCodec(codec) => ChangeCodecCall(codec);
        case ChangeProfileLevel(profile, level) => ChangeEncoderProfileLevel(profile, level);
      }
    }

    method Controls(cs: seq<Control>)
      modifies this
      ensures Abs() == ApplyAll(old(Abs()), cs)
    {
      var i := 0;
      while i < |cs|
        invariant 0 <= i <= |cs|
        invariant ApplyAll(Abs(), cs[i..]) == ApplyAll(old(Abs()), cs)
      {
        Control(cs[i]);
        assert cs[i..][1..] == cs[i + 1..];
        i := i + 1;
      }
    }

    method DecodeStream(buildOk: bool, pushOk: bool) returns (ok: bool)
      modifies this
      ensures (Abs(), ok) == Decode(old(Abs()), buildOk, pushOk)
    {
      if isEncHWError || isResolutionChange {
        filter := None;
      }
      if filter.None? {
        if !buildOk {
          return false;
        }
        if isResolutionChange {
          decSize := newSize;
        }
        filter := Some(decSize);
        filterBuild := filterBuild + 1;
      }
      ok := pushOk;
    }

    method Process(input: Input) returns (ret: InputRet)
      modifies this
      ensures (Abs(), ret) == ProcessInput(old(Abs()), input)
    {
      match input {
        case ReadFails => ret := Failed;
        case StreamNotFound => ret := Retry;
        case EndOfFile(buildOk, pushOk) =>
          var _ := DecodeStream(buildOk, pushOk);
          ret := Ended;
        case Packet(ctrl, crop, writeOk, buildOk, pushOk) =>
          if crop.Some? {
            Control(ChangeResolution(crop.value.width, crop.value.height));
          }
          if !writeOk {
            return Failed;
          }
          var ok := DecodeStream(buildOk, pushOk);
          if !ok {
            return Failed;
          }
          if ctrl.Some? {
            dispCtrlQueue := dispCtrlQueue + [ctrl.value];
          }
          ret := Decoded;
      }
    }

    method Packets(packets: seq<PacketOut>) returns (ret: Ret)
      modifies this
      ensures (Abs(), ret) == WritePackets(old(Abs()), packets)
    {
      var i := 0;
      while i < |packets|
        invariant 0 <= i <= |packets|
        invariant WritePackets(Abs(), packets[i..]) == WritePackets(old(Abs()), packets)
      {
        Controls(packets[i].controls);
        if packets[i].mux.Fail? {
          return packets[i].mux;
        }
        assert packets[i..][1..] == packets[i + 1..];
        i := i + 1;
      }
      ret := Ok;
    }

    method DrainEncoder(d: DrainOut) returns (ret: Ret)
      modifies this
      ensures (Abs(), ret) == Drain(old(Abs()), d)
    {
      ret := Packets(d.packets);
      if ret.Fail? {
        return;
      }
      if d.readEio {
        return Fail(true);
      }
      if d.captureWrite.Fail? {
        return d.captureWrite;
      }
      ret := Packets(d.capture);
    }

    method TakeControl() returns (ctrl: Option<Ctrl>)
      modifies this`dispCtrlQueue
      ensures ctrl == FirstControl(old(dispCtrlQueue)) && dispCtrlQueue == LaterControls(old(dispCtrlQueue))
    {
      ctrl := None;
      if dispCtrlQueue != [] {
        ctrl := Some(dispCtrlQueue[0]);
        dispCtrlQueue := dispCtrlQueue[1..];
      }
    }

    method Frame(f: FrameOut) returns (ret: Ret)
      modifies this
      ensures (Abs(), ret) == EncodeFrame(old(Abs()), f)
    {
      if filter.None? || encoder.None? {
        return Ok;
      }
      var ctrl := TakeControl();
      if f.write.Fail? {
        return f.write;
      }
      encoded := encoded + [Encoded(filter.value, encoder.value.size, encoder.value.name, ctrl, filterBuild, encoderBuild)];
      if !streamFound && f.addStream.Fail? {
        return f.addStream;
      }
      streamFound := true;
      ret := DrainEncoder(f.drain);
    }

    method EraseEncoders()
      modifies this
      ensures Abs() == DropEncoder(old(Abs()))
    {
      if isEncHWError || isResolutionChange || isCodecChange || isProfileLevelChange {
        encoder := None;
        isEncHWError, isResolutionChange, isCodecChange, isProfileLevelChange := false, false, false, false;
      }
    }

    method CreateEncoder()
      requires filter.Some?
      modifies this
      ensures Abs() == BuildEncoder(old(Abs()))
    {
      if encoder.None? {
        var props := config.props;
        encoder := Some(Encoder(filter.value, ChosenEncoder(config), Lookup(props, KeyProfile), Lookup(props, KeyLevel)));
        encoderBuild := encoderBuild + 1;
      }
    }

    method Frames(frames: seq<FrameOut>) returns (ret: Ret)
      modifies this
      ensures (Abs(), ret) == EncodeFrames(old(Abs()), frames)
    {
      var i := 0;
      while i < |frames|
        invariant 0 <= i <= |frames|
        invariant EncodeFrames(Abs(), frames[i..]) == EncodeFrames(old(Abs()), frames)
      {
        ghost var before := Abs();
        ret := Frame(frames[i]);
        FramesStep(before, frames[i..]);
        if ret.Fail? {
          return;
        }
        assert frames[i..][1..] == frames[i + 1..];
        i := i + 1;
      }
      ret := Ok;
    }

    method Output(frames: seq<FrameOut>, flush: bool, tail: DrainOut) returns (ret: Ret)
      modifies this
      ensures (Abs(), ret) == DoOutput(old(Abs()), frames, flush, tail)
    {
      if filter.None? {
        return Ok;
      }
      EraseEncoders();
      CreateEncoder();
      ret := Frames(frames);
      if ret.Ok? && flush {
        ret := DrainEncoder(tail);
      }
    }

    method RunIteration(it: Iteration)
      modifies this
      ensures Abs() == RunOnce(old(Abs()), it)
    {
      Controls(it.before);
      if it.Waiting? {
        return;
      }
      var input := Process(it.input);
      match input {
        case Retry =>
        case Failed => stop := true;
        case Ended =>
          var _ := Output(it.frames, true, it.tail);
          stop := true;
        case Decoded =>
          var ret := Output(it.frames, false, it.tail);
          if ret == Fail(true) {
            isEncHWError := true;
          }
      }
    }
  }

  lemma {:induction false} FramesStep(s: State, frames: seq<FrameOut>)
    requires frames != []
    ensures var (s1, ret) := EncodeFrame(s, frames[0]);
            EncodeFrames(s, frames) == if ret.Fail? then (s1, ret) else EncodeFrames(s1, frames[1..])
  {
  }

  function Started(cfg: Config, size: Size): State {
    State(NO_FLAGS, Size(0, 0), false, cfg, size, None, None, [], false, false, 0, 0, [])
  }
}
