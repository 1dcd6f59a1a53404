/**
 * What the transcoder loop does about errors and requests: a hardware failure or an accepted control call
 * replaces filter and encoder before any later frame, the encoder has the profile and level asked for, later
 * frames have the size asked for, and the loop stops exactly when its input ends.
 */
module TranscoderRebuild {
  import opened Options
  import opened Transcoder
  import opened TranscoderSafety

  // ---------------------------------------------------------------- which control calls count

  /** The calls that ask for something new. */
  predicate Accepted(s: State, c: Control) {
    match c
    case ChangeResolution(w, h) => 32 <= w <= 4096 && 32 <= h <= 4096
    case ChangeCodec(codec) => codec in {H264, HEVC} && codec != s.cfg.codec
    case ChangeProfileLevel(profile, level) => profile.Some? || level.Some?
  }

  /** An accepted call raises its flag and records its values; any other changes no flag, no size and no property. */
  lemma ControlsExactly(s: State, c: Control)
    ensures var t := Apply(s, c);
            && (c.ChangeResolution? && Accepted(s, c) ==>
                  t.flags.resolution && t.newSize.width == c.width && t.newSize.height == c.height && t.cfg == s.cfg)
            && (c.ChangeCodec? && Accepted(s, c) ==>
                  t.flags.codec && t.cfg.codec == t.cfg.streamerCodec == c.codec && t.newSize == s.newSize
                  && KeyProfile !in t.cfg.props && KeyLevel !in t.cfg.props)
            && (c.ChangeProfileLevel? && Accepted(s, c) ==>
                  && t.flags.profile && t.newSize == s.newSize
                  && Lookup(t.cfg.props, KeyProfile) == (if c.profile.Some? then c.profile else Lookup(s.cfg.props, KeyProfile))
                  && Lookup(t.cfg.props, KeyLevel) == (if c.level.Some? then c.level else Lookup(s.cfg.props, KeyLevel)))
            && (!Accepted(s, c) ==> t.flags == s.flags && t.newSize == s.newSize && t.cfg.props == s.cfg.props)
  {
  }

  // ---------------------------------------------------------------- rebuilds

  /** Since frame `n` every frame has an encoder built after `e` and, if asked for, a filter built after `f`. */
  ghost predicate NewSince(encoded: seq<Encoded>, n: nat, f: nat, e: nat, filters: bool) {
    forall k :: n <= k < |encoded| ==> encoded[k].encoderBuild > e && (filters ==> encoded[k].filterBuild > f)
  }

  /** A new encoder, and filter if asked for, is there or will be before the next frame. */
  ghost predicate Due(s: State, n: nat, f: nat, e: nat, filters: bool) {
    && s.encoderBuild >= e && s.filterBuild >= f && n <= |s.encoded|
    && (s.flags != NO_FLAGS || s.encoder.None? || s.encoderBuild > e)
    && (filters ==> s.flags.hwError || s.flags.resolution || s.filterBuild > f)
    && NewSince(s.encoded, n, f, e, filters)
  }

  ghost predicate FilterReady(s: State, f: nat, filters: bool) {
    s.filter.Some? && filters ==> s.filterBuild > f
  }

  lemma ControlsDue(s: State, cs: seq<Control>, n: nat, f: nat, e: nat, filters: bool)
    requires Due(s, n, f, e, filters)
    ensures Due(ApplyAll(s, cs), n, f, e, filters)
  {
    ControlsDrift(s, cs);
  }

  lemma DecodeDue(s: State, buildOk: bool, pushOk: bool, n: nat, f: nat, e: nat, filters: bool)
    requires Due(s, n, f, e, filters)
    ensures Due(Decode(s, buildOk, pushOk).0, n, f, e, filters) && FilterReady(Decode(s, buildOk, pushOk).0, f, filters)
  {
  }

  lemma InputDue(s: State, input: Input, n: nat, f: nat, e: nat, filters: bool)
    requires Due(s, n, f, e, filters)
    ensures var (t, ret) := ProcessInput(s, input);
            Due(t, n, f, e, filters) && (ret in {Decoded, Ended} ==> FilterReady(t, f, filters))
  {
    match input
    case ReadFails =>
    case StreamNotFound =>
    case EndOfFile(buildOk, pushOk) => DecodeDue(s, buildOk, pushOk, n, f, e, filters);
    case Packet(ctrl, crop, writeOk, buildOk, pushOk) =>
      assert Due(Cropped(s, crop), n, f, e, filters);
      DecodeDue(Cropped(s, crop), buildOk, pushOk, n, f, e, filters);
  }

  /** Both are new. */
  ghost predicate Fresh(s: State, n: nat, f: nat, e: nat, filters: bool) {
    s.encoderBuild > e && s.filterBuild >= f && (filters ==> s.filterBuild > f) && n <= |s.encoded|
    && NewSince(s.encoded, n, f, e, filters)
  }

  lemma FrameFresh(s: State, frame: FrameOut, n: nat, f: nat, e: nat, filters: bool)
    requires Fresh(s, n, f, e, filters)
    ensures Fresh(EncodeFrame(s, frame).0, n, f, e, filters)
  {
    if s.filter.Some? && s.encoder.Some? {
      var w := Written(s, frame.write.Ok?);
      assert NewSince(w.encoded, n, f, e, filters);
      DrainDrifts(w.(streamFound := true), frame.drain);
    }
  }

  lemma {:induction false} FramesFresh(s: State, frames: seq<FrameOut>, n: nat, f: nat, e: nat, filters: bool)
    requires Fresh(s, n, f, e, filters)
    ensures Fresh(EncodeFrames(s, frames).0, n, f, e, filters)
    decreases |frames|
  {
    if frames != [] {
      FrameFresh(s, frames[0], n, f, e, filters);
      if EncodeFrame(s, frames[0]).1.Ok? {
        FramesFresh(EncodeFrame(s, frames[0]).0, frames[1..], n, f, e, filters);
      }
    }
  }

  lemma PrepareFresh(s: State, n: nat, f: nat, e: nat, filters: bool)
    requires Due(s, n, f, e, filters) && s.filter.Some? && FilterReady(s, f, filters)
    ensures Fresh(Prepare(s), n, f, e, filters)
  {
  }

  lemma OutputDue(s: State, frames: seq<FrameOut>, flush: bool, tail: DrainOut, n: nat, f: nat, e: nat, filters: bool)
    requires Due(s, n, f, e, filters) && FilterReady(s, f, filters)
    ensures Due(DoOutput(s, frames, flush, tail).0, n, f, e, filters)
  {
    if s.filter.Some? {
      PrepareFresh(s, n, f, e, filters);
      FramesFresh(Prepare(s), frames, n, f, e, filters);
      DrainDrifts(EncodeFrames(Prepare(s), frames).0, tail);
    }
  }

  lemma WorkedDue(read: (State, InputRet), frames: seq<FrameOut>, tail: DrainOut, n: nat, f: nat, e: nat, filters: bool)
    requires Due(read.0, n, f, e, filters) && (read.1 in {Decoded, Ended} ==> FilterReady(read.0, f, filters))
    ensures Due(Worked(read, frames, tail), n, f, e, filters)
  {
    if read.1 in {Decoded, Ended} {
      OutputDue(read.0, frames, read.1 == Ended, tail, n, f, e, filters);
    }
  }

  lemma RunOnceDue(s: State, it: Iteration, n: nat, f: nat, e: nat, filters: bool)
    requires Due(s, n, f, e, filters)
    ensures Due(RunOnce(s, it), n, f, e, filters)
  {
    ControlsDue(s, it.before, n, f, e, filters);
    if it.Working? {
      InputDue(ApplyAll(s, it.before), it.input, n, f, e, filters);
      WorkedDue(ProcessInput(ApplyAll(s, it.before), it.input), it.frames, it.tail, n, f, e, filters);
    }
  }

  lemma {:induction false} RunDue(s: State, its: seq<Iteration>, n: nat, f: nat, e: nat, filters: bool)
    requires Due(s, n, f, e, filters)
    ensures Due(Run(s, its), n, f, e, filters)
    decreases |its|
  {
    if its != [] && !s.stop {
      RunOnceDue(s, its[0], n, f, e, filters);
      RunDue(RunOnce(s, its[0]), its[1..], n, f, e, filters);
    }
  }

  /**
   * With any flag up, every frame of every later iteration, and of the final flush, has an encoder built from
   * then on; after a hardware error or a resolution change, every frame of every later iteration also has a new filter.
   */
  lemma RaisedFlagRebuilds(s: State, its: seq<Iteration>, frames: seq<FrameOut>, tail: DrainOut)
    requires s.flags != NO_FLAGS
    ensures var u := Run(s, its);
            && NewSince(u.encoded, |s.encoded|, s.filterBuild, s.encoderBuild, s.flags.hwError || s.flags.resolution)
            && NewSince(Finish(u, frames, tail).encoded, |s.encoded|, s.filterBuild, s.encoderBuild, false)
  {
    RunDue(s, its, |s.encoded|, s.filterBuild, s.encoderBuild, s.flags.hwError || s.flags.resolution);
    RunDue(s, its, |s.encoded|, s.filterBuild, s.encoderBuild, false);
    OutputDue(Run(s, its), frames, true, tail, |s.encoded|, s.filterBuild, s.encoderBuild, false);
  }

  /** The iteration decoded a packet and its output ended in a hardware failure. */
  predicate HardwareFails(s: State, it: Iteration) {
    it.Working?
    && var (t, ret) := ProcessInput(ApplyAll(s, it.before), it.input);
       ret == Decoded && DoOutput(t, it.frames, false, it.tail).1 == Fail(true)
  }

  /** After a decoded packet the hardware-error flag is up exactly when the output ended in a hardware failure. */
  lemma FlagRaisedExactly(s: State, it: Iteration)
    requires it.Working? && ProcessInput(ApplyAll(s, it.before), it.input).1 == Decoded
    ensures RunOnce(s, it).flags.hwError <==> HardwareFails(s, it)
  {
    var t := ProcessInput(ApplyAll(s, it.before), it.input).0;
    DecodedHasFilter(ApplyAll(s, it.before), it.input);
    OutputClearsError(t, it.frames, it.tail);
  }

  lemma DecodedHasFilter(s: State, input: Input)
    requires ProcessInput(s, input).1 == Decoded
    ensures ProcessInput(s, input).0.filter.Some?
  {
  }

  lemma OutputClearsError(s: State, frames: seq<FrameOut>, tail: DrainOut)
    requires s.filter.Some?
    ensures !DoOutput(s, frames, false, tail).0.flags.hwError
  {
    FramesKeepError(Prepare(s), frames);
  }

  lemma {:induction false} FramesKeepError(s: State, frames: seq<FrameOut>)
    ensures EncodeFrames(s, frames).0.flags.hwError == s.flags.hwError
    decreases |frames|
  {
    if frames != [] {
      if s.filter.Some? && s.encoder.Some? {
        DrainDrifts(Written(s, frames[0].write.Ok?).(streamFound := true), frames[0].drain);
      }
      if EncodeFrame(s, frames[0]).1.Ok? {
        FramesKeepError(EncodeFrame(s, frames[0]).0, frames[1..]);
      }
    }
  }

  /** After a hardware failure no frame of a later iteration comes from the filter or the encoder then in use. */
  lemma HardwareFailureRebuilds(s: State, it: Iteration, its: seq<Iteration>, frames: seq<FrameOut>, tail: DrainOut)
    requires HardwareFails(s, it)
    ensures var t := RunOnce(s, it);
            var u := Run(t, its);
            && t.flags.hwError
            && NewSince(u.encoded, |t.encoded|, t.filterBuild, t.encoderBuild, true)
            && NewSince(Finish(u, frames, tail).encoded, |t.encoded|, t.filterBuild, t.encoderBuild, false)
  {
    RaisedFlagRebuilds(RunOnce(s, it), its, frames, tail);
  }

  /** After an accepted call between iterations no later frame comes from the encoder then in use. */
  lemma AcceptedControlRebuilds(s: State, c: Control, its: seq<Iteration>, frames: seq<FrameOut>, tail: DrainOut)
    requires Accepted(s, c)
    ensures var t := Apply(s, c);
            var u := Run(t, its);
            && NewSince(u.encoded, |t.encoded|, t.filterBuild, t.encoderBuild, c.ChangeResolution?)
            && NewSince(Finish(u, frames, tail).encoded, |t.encoded|, t.filterBuild, t.encoderBuild, false)
  {
    RaisedFlagRebuilds(Apply(s, c), its, frames, tail);
  }

  /** The filter is built anew exactly when there is none, after a hardware error, or for a new size; never for less. */
  lemma FilterBuiltExactly(s: State, buildOk: bool, pushOk: bool)
    ensures Decode(s, buildOk, pushOk).0.filterBuild ==
            s.filterBuild + if (s.filter.None? || s.flags.hwError || s.flags.resolution) && buildOk then 1 else 0
  {
  }

  /** The encoder is built anew exactly when there is none or any flag is up, and that takes all flags down. */
  lemma EncoderBuiltExactly(s: State)
    requires s.filter.Some?
    ensures Prepare(s).encoderBuild == s.encoderBuild + if s.encoder.None? || s.flags != NO_FLAGS then 1 else 0
    ensures Prepare(s).flags == NO_FLAGS && Prepare(s).filterBuild == s.filterBuild
  {
  }

  lemma FlagsStay(s: State, cs: seq<Control>)
    requires s.flags != NO_FLAGS
    ensures ApplyAll(s, cs).flags != NO_FLAGS
  {
    ControlsDrift(s, cs);
  }

  lemma {:induction false} AcceptedRaises(s: State, cs: seq<Control>, i: nat)
    requires i < |cs| && Accepted(ApplyAll(s, cs[..i]), cs[i])
    ensures ApplyAll(s, cs).flags != NO_FLAGS
    decreases i
  {
    if i == 0 {
      assert cs[..0] == [];
      FlagsStay(Apply(s, cs[0]), cs[1..]);
    } else {
      assert cs[..i][0] == cs[0] && cs[..i][1..] == cs[1..][..i - 1];
      AcceptedRaises(Apply(s, cs[0]), cs[1..], i - 1);
    }
  }

  /**
   * A call accepted before an iteration's work, also while it waits for a client, counts at once: the iteration's
   * own frames and all later ones come from a new encoder.
   */
  lemma CallBeforeWorkRebuilds(s: State, it: Iteration, i: nat, its: seq<Iteration>)
    requires i < |it.before| && Accepted(ApplyAll(s, it.before[..i]), it.before[i])
    ensures NewSince(Run(RunOnce(s, it), its).encoded, |s.encoded|, s.filterBuild, s.encoderBuild, false)
    ensures it.Waiting? ==> RunOnce(s, it).flags != NO_FLAGS
  {
    var t := ApplyAll(s, it.before);
    AcceptedRaises(s, it.before, i);
    ControlsDrift(s, it.before);
    assert Due(t, |s.encoded|, s.filterBuild, s.encoderBuild, false);
    if it.Working? {
      InputDue(t, it.input, |s.encoded|, s.filterBuild, s.encoderBuild, false);
      WorkedDue(ProcessInput(t, it.input), it.frames, it.tail, |s.encoded|, s.filterBuild, s.encoderBuild, false);
    }
    RunDue(RunOnce(s, it), its, |s.encoded|, s.filterBuild, s.encoderBuild, false);
  }

  /** The crop check asks for its size when that is acceptable: the packet's own filter is built at it. */
  lemma CropRequestsSize(s: State, input: Input)
    requires input.Packet? && input.crop.Some?
    requires 32 <= input.crop.value.width <= 4096 && 32 <= input.crop.value.height <= 4096
    ensures var (t, ret) := ProcessInput(s, input);
            t.flags.resolution && t.newSize == input.crop.value && (ret == Decoded ==> t.filter == input.crop)
  {
  }

  // ---------------------------------------------------------------- profile and level

  /** The live encoder has the profile and level configured, unless a change is pending. */
  ghost predicate ProfileInv(s: State) {
    s.encoder.Some? && !s.flags.codec && !s.flags.profile ==>
      s.encoder.value.profile == Lookup(s.cfg.props, KeyProfile) && s.encoder.value.level == Lookup(s.cfg.props, KeyLevel)
  }

  lemma {:induction false} ControlsKeepProfile(s: State, cs: seq<Control>)
    requires ProfileInv(s)
    ensures ProfileInv(ApplyAll(s, cs))
    decreases |cs|
  {
    if cs != [] {
      ControlKeepsProfile(s, cs[0]);
      ControlsKeepProfile(Apply(s, cs[0]), cs[1..]);
    }
  }

  lemma ControlKeepsProfile(s: State, c: Control)
    requires ProfileInv(s)
    ensures ProfileInv(Apply(s, c))
  {
  }

  lemma {:induction false} PacketsKeepProfile(s: State, packets: seq<PacketOut>)
    requires ProfileInv(s)
    ensures ProfileInv(WritePackets(s, packets).0)
    decreases |packets|
  {
    if packets != [] {
      ControlsKeepProfile(s, packets[0].controls);
      PacketsKeepProfile(ApplyAll(s, packets[0].controls), packets[1..]);
    }
  }

  lemma DrainKeepsProfile(s: State, d: DrainOut)
    requires ProfileInv(s)
    ensures ProfileInv(Drain(s, d).0)
  {
    PacketsKeepProfile(s, d.packets);
    PacketsKeepProfile(WritePackets(s, d.packets).0, d.capture);
  }

  lemma {:induction false} FramesKeepProfile(s: State, frames: seq<FrameOut>)
    requires ProfileInv(s)
    ensures ProfileInv(EncodeFrames(s, frames).0)
    decreases |frames|
  {
    if frames != [] {
      if s.filter.Some? && s.encoder.Some? {
        DrainKeepsProfile(Written(s, frames[0].write.Ok?).(streamFound := true), frames[0].drain);
      }
      if EncodeFrame(s, frames[0]).1.Ok? {
        FramesKeepProfile(EncodeFrame(s, frames[0]).0, frames[1..]);
      }
    }
  }

  lemma OutputKeepsProfile(s: State, frames: seq<FrameOut>, flush: bool, tail: DrainOut)
    requires ProfileInv(s)
    ensures ProfileInv(DoOutput(s, frames, flush, tail).0)
  {
    if s.filter.Some? {
      assert ProfileInv(Prepare(s));
      FramesKeepProfile(Prepare(s), frames);
      DrainKeepsProfile(EncodeFrames(Prepare(s), frames).0, tail);
    }
  }

  lemma InputKeepsProfile(s: State, input: Input)
    requires ProfileInv(s)
    ensures ProfileInv(ProcessInput(s, input).0)
  {
    match input
    case ReadFails =>
    case StreamNotFound =>
    case EndOfFile(buildOk, pushOk) => DecodeKeepsProfile(s, buildOk, pushOk);
    case Packet(ctrl, crop, writeOk, buildOk, pushOk) =>
      if crop.Some? {
        ControlKeepsProfile(s, ChangeResolution(crop.value.width, crop.value.height));
      }
      DecodeKeepsProfile(Cropped(s, crop), buildOk, pushOk);
  }

  lemma DecodeKeepsProfile(s: State, buildOk: bool, pushOk: bool)
    requires ProfileInv(s)
    ensures ProfileInv(Decode(s, buildOk, pushOk).0)
  {
  }

  lemma {:induction false} RunKeepsProfile(s: State, its: seq<Iteration>)
    requires ProfileInv(s)
    ensures ProfileInv(Run(s, its))
    decreases |its|
  {
    if its != [] && !s.stop {
      var it := its[0];
      ControlsKeepProfile(s, it.before);
      if it.Working? {
        var read := ProcessInput(ApplyAll(s, it.before), it.input);
        InputKeepsProfile(ApplyAll(s, it.before), it.input);
        OutputKeepsProfile(read.0, it.frames, read.1 == Ended, it.tail);
      }
      RunKeepsProfile(RunOnce(s, it), its[1..]);
    }
  }

  /** In every run, mux-write calls included, the encoder has the profile and level asked for last, or a rebuild is pending. */
  lemma ProfileAgreement(cfg: Config, size: Size, its: seq<Iteration>, frames: seq<FrameOut>, tail: DrainOut)
    ensures ProfileInv(Run(Started(cfg, size), its)) && ProfileInv(Finish(Run(Started(cfg, size), its), frames, tail))
  {
    RunKeepsProfile(Started(cfg, size), its);
    OutputKeepsProfile(Run(Started(cfg, size), its), frames, true, tail);
  }

  // ---------------------------------------------------------------- the size asked for

  predicate NoResize(cs: seq<Control>) {
    forall k :: 0 <= k < |cs| ==> !cs[k].ChangeResolution?
  }

  predicate DrainQuiet(d: DrainOut) {
    && (forall k :: 0 <= k < |d.packets| ==> NoResize(d.packets[k].controls))
    && (forall k :: 0 <= k < |d.capture| ==> NoResize(d.capture[k].controls))
  }

  /** No further resolution change in this iteration. */
  predicate Quiet(it: Iteration) {
    && NoResize(it.before)
    && (it.Working? ==>
          && (it.input.Packet? ==> it.input.crop.None?)
          && (forall k :: 0 <= k < |it.frames| ==> DrainQuiet(it.frames[k].drain)) && DrainQuiet(it.tail))
  }

  /** The size `z` is pending or in force, and every frame from `n` on has it. */
  ghost predicate Sized(s: State, n: nat, z: Size) {
    && s.newSize == z && (s.flags.resolution || s.decSize == z) && (s.filter.Some? ==> s.filter.value == s.decSize)
    && n <= |s.encoded| && (forall k :: n <= k < |s.encoded| ==> s.encoded[k].filterSize == z)
  }

  lemma {:induction false} ControlsSized(s: State, cs: seq<Control>, n: nat, z: Size)
    requires Sized(s, n, z) && NoResize(cs)
    ensures Sized(ApplyAll(s, cs), n, z) && ApplyAll(s, cs).flags.resolution == s.flags.resolution
    decreases |cs|
  {
    if cs != [] {
      assert !cs[0].ChangeResolution?;
      ControlsSized(Apply(s, cs[0]), cs[1..], n, z);
    }
  }

  lemma {:induction false} PacketsSized(s: State, packets: seq<PacketOut>, n: nat, z: Size)
    requires Sized(s, n, z) && forall k :: 0 <= k < |packets| ==> NoResize(packets[k].controls)
    ensures Sized(WritePackets(s, packets).0, n, z) && WritePackets(s, packets).0.flags.resolution == s.flags.resolution
    decreases |packets|
  {
    if packets != [] {
      ControlsSized(s, packets[0].controls, n, z);
      PacketsSized(ApplyAll(s, packets[0].controls), packets[1..], n, z);
    }
  }

  lemma DrainSized(s: State, d: DrainOut, n: nat, z: Size)
    requires Sized(s, n, z) && DrainQuiet(d)
    ensures Sized(Drain(s, d).0, n, z) && Drain(s, d).0.flags.resolution == s.flags.resolution
  {
    PacketsSized(s, d.packets, n, z);
    PacketsSized(WritePackets(s, d.packets).0, d.capture, n, z);
  }

  lemma FrameSized(s: State, f: FrameOut, n: nat, z: Size)
    requires Sized(s, n, z) && !s.flags.resolution && DrainQuiet(f.drain)
    ensures Sized(EncodeFrame(s, f).0, n, z) && !EncodeFrame(s, f).0.flags.resolution
  {
    if s.filter.Some? && s.encoder.Some? {
      DrainSized(Written(s, f.write.Ok?).(streamFound := true), f.drain, n, z);
    }
  }

  lemma {:induction false} FramesSized(s: State, frames: seq<FrameOut>, n: nat, z: Size)
    requires Sized(s, n, z) && !s.flags.resolution && forall k :: 0 <= k < |frames| ==> DrainQuiet(frames[k].drain)
    ensures Sized(EncodeFrames(s, frames).0, n, z) && !EncodeFrames(s, frames).0.flags.resolution
    decreases |frames|
  {
    if frames != [] {
      FrameSized(s, frames[0], n, z);
      if EncodeFrame(s, frames[0]).1.Ok? {
        FramesSized(EncodeFrame(s, frames[0]).0, frames[1..], n, z);
      }
    }
  }

  lemma OutputSized(s: State, frames: seq<FrameOut>, flush: bool, tail: DrainOut, n: nat, z: Size)
    requires Sized(s, n, z) && (s.filter.Some? ==> s.decSize == z)
    requires DrainQuiet(tail) && forall k :: 0 <= k < |frames| ==> DrainQuiet(frames[k].drain)
    ensures Sized(DoOutput(s, frames, flush, tail).0, n, z)
  {
    if s.filter.Some? {
      assert Sized(Prepare(s), n, z) && !Prepare(s).flags.resolution;
      FramesSized(Prepare(s), frames, n, z);
      DrainSized(EncodeFrames(Prepare(s), frames).0, tail, n, z);
    }
  }

  lemma InputSized(s: State, input: Input, n: nat, z: Size)
    requires Sized(s, n, z) && (input.Packet? ==> input.crop.None?)
    ensures var (t, ret) := ProcessInput(s, input);
            Sized(t, n, z) && (ret in {Decoded, Ended} && t.filter.Some? ==> t.decSize == z)
  {
    match input
    case ReadFails =>
    case StreamNotFound =>
    case EndOfFile(buildOk, pushOk) => DecodeSized(s, buildOk, pushOk, n, z);
    case Packet(_, _, _, buildOk, pushOk) => DecodeSized(s, buildOk, pushOk, n, z);
  }

  lemma DecodeSized(s: State, buildOk: bool, pushOk: bool, n: nat, z: Size)
    requires Sized(s, n, z)
    ensures var t := Decode(s, buildOk, pushOk).0; Sized(t, n, z) && (t.filter.Some? ==> t.decSize == z)
  {
  }

  lemma WorkedSized(read: (State, InputRet), frames: seq<FrameOut>, tail: DrainOut, n: nat, z: Size)
    requires Sized(read.0, n, z) && (read.1 in {Decoded, Ended} && read.0.filter.Some? ==> read.0.decSize == z)
    requires DrainQuiet(tail) && forall k :: 0 <= k < |frames| ==> DrainQuiet(frames[k].drain)
    ensures Sized(Worked(read, frames, tail), n, z)
  {
    if read.1 in {Decoded, Ended} {
      OutputSized(read.0, frames, read.1 == Ended, tail, n, z);
    }
  }

  lemma {:induction false} RunSized(s: State, its: seq<Iteration>, n: nat, z: Size)
    requires Sized(s, n, z) && forall k :: 0 <= k < |its| ==> Quiet(its[k])
    ensures Sized(Run(s, its), n, z)
    decreases |its|
  {
    if its != [] && !s.stop {
      var it := its[0];
      ControlsSized(s, it.before, n, z);
      if it.Working? {
        InputSized(ApplyAll(s, it.before), it.input, n, z);
        WorkedSized(ProcessInput(ApplyAll(s, it.before), it.input), it.frames, it.tail, n, z);
      }
      RunSized(RunOnce(s, it), its[1..], n, z);
    }
  }

  /**
   * After an accepted change to width w and height h, as long as no other is made, every frame of every later
   * iteration leaves the filter and the encoder at exactly that size.
   */
  lemma LaterFramesHaveSize(cfg: Config, size: Size, earlier: seq<Iteration>, w: int, h: int, later: seq<Iteration>)
    requires 32 <= w <= 4096 && 32 <= h <= 4096 && forall k :: 0 <= k < |later| ==> Quiet(later[k])
    ensures var s := Run(Started(cfg, size), earlier);
            var u := Run(Apply(s, ChangeResolution(w, h)), later);
            forall k :: |s.encoded| <= k < |u.encoded| ==>
              u.encoded[k].filterSize.width == u.encoded[k].encoderSize.width == w
              && u.encoded[k].filterSize.height == u.encoded[k].encoderSize.height == h
  {
    var s := Run(Started(cfg, size), earlier);
    var t := Apply(s, ChangeResolution(w, h));
    RunKeeps(Started(cfg, size), earlier);
    ControlsExactly(s, ChangeResolution(w, h));
    RunSized(t, later, |s.encoded|, Size(w, h));
    assert Inv(t);
    RunKeeps(t, later);
  }

  // ---------------------------------------------------------------- results and stops

  /** The results of one frame in program order; a stream is added to the mux only once. */
  function ResultsOf(f: FrameOut, found: bool): seq<Ret> {
    [f.write] + (if found then [] else [f.addStream]) + DrainResults(f.drain)
  }

  function DrainResults(d: DrainOut): seq<Ret> {
    MuxResults(d.packets) + [if d.readEio then Fail(true) else Ok] + [d.captureWrite] + MuxResults(d.capture)
  }

  function MuxResults(packets: seq<PacketOut>): (r: seq<Ret>)
    ensures |r| == |packets| && forall k :: 0 <= k < |packets| ==> r[k] == packets[k].mux
  {
    seq(|packets|, k requires 0 <= k < |packets| => packets[k].mux)
  }

  function FirstFailure(rets: seq<Ret>): Ret
    decreases |rets|
  {
    if rets == [] then Ok else if rets[0].Fail? then rets[0] else FirstFailure(rets[1..])
  }

  lemma {:induction false} FirstFailureAppend(a: seq<Ret>, b: seq<Ret>)
    ensures FirstFailure(a + b) == if FirstFailure(a).Fail? then FirstFailure(a) else FirstFailure(b)
    decreases |a|
  {
    if a == [] {
      assert a + b == b;
    } else {
      assert (a + b)[1..] == a[1..] + b;
      FirstFailureAppend(a[1..], b);
    }
  }

  lemma {:induction false} PacketsResult(s: State, packets: seq<PacketOut>)
    ensures WritePackets(s, packets).1 == FirstFailure(MuxResults(packets))
    decreases |packets|
  {
    if packets != [] {
      assert MuxResults(packets)[1..] == MuxResults(packets[1..]);
      PacketsResult(ApplyAll(s, packets[0].controls), packets[1..]);
    }
  }

  lemma FirstOfOne(r: Ret)
    ensures FirstFailure([r]) == r
  {
    assert [r][1..] == [];
  }

  lemma DrainResult(s: State, d: DrainOut)
    ensures Drain(s, d).1 == FirstFailure(DrainResults(d))
  {
    var a, b, c := MuxResults(d.packets), [if d.readEio then Fail(true) else Ok], MuxResults(d.capture);
    PacketsResult(s, d.packets);
    PacketsResult(WritePackets(s, d.packets).0, d.capture);
    FirstFailureAppend(a + b + [d.captureWrite], c);
    FirstFailureAppend(a + b, [d.captureWrite]);
    FirstFailureAppend(a, b);
    FirstOfOne(b[0]);
    FirstOfOne(d.captureWrite);
  }

  /** A frame ends with its first failure, and the encoder has taken it exactly if the write succeeded. */
  lemma FrameResult(s: State, f: FrameOut)
    requires s.filter.Some? && s.encoder.Some?
    ensures var (t, ret) := EncodeFrame(s, f);
            && ret == FirstFailure(ResultsOf(f, s.streamFound))
            && |t.encoded| == |s.encoded| + (if f.write.Ok? then 1 else 0)
            && t.filter.Some? && t.encoder.Some? && (ret.Ok? ==> t.streamFound)
  {
    var add, drain := if s.streamFound then [] else [f.addStream], DrainResults(f.drain);
    var w := Written(s, f.write.Ok?).(streamFound := true);
    DrainResult(w, f.drain);
    DrainDrifts(w, f.drain);
    FirstFailureAppend([f.write] + add, drain);
    FirstFailureAppend([f.write], add);
    FirstOfOne(f.write);
    FirstOfOne(f.addStream);
  }

  /** All results of an output in program order. */
  function AllResults(frames: seq<FrameOut>, found: bool): seq<Ret>
    decreases |frames|
  {
    if frames == [] then [] else ResultsOf(frames[0], found) + AllResults(frames[1..], true)
  }

  /** How many frames the encoder takes: those before the first failure, and the failing one if its write succeeded. */
  function Taken(frames: seq<FrameOut>, found: bool): nat
    decreases |frames|
  {
    if frames == [] then 0
    else (if frames[0].write.Ok? then 1 else 0)
         + if FirstFailure(ResultsOf(frames[0], found)).Fail? then 0 else Taken(frames[1..], true)
  }

  lemma {:induction false} FramesResult(s: State, frames: seq<FrameOut>)
    requires s.filter.Some? && s.encoder.Some?
    ensures var (t, ret) := EncodeFrames(s, frames);
            ret == FirstFailure(AllResults(frames, s.streamFound)) && |t.encoded| == |s.encoded| + Taken(frames, s.streamFound)
    decreases |frames|
  {
    if frames != [] {
      FrameResult(s, frames[0]);
      FirstFailureAppend(ResultsOf(frames[0], s.streamFound), AllResults(frames[1..], true));
      if EncodeFrame(s, frames[0]).1.Ok? {
        FramesResult(EncodeFrame(s, frames[0]).0, frames[1..]);
      }
    }
  }

  /** doOutput returns the first failure in program order; before that every popped frame is encoded. */
  lemma OutputResult(s: State, frames: seq<FrameOut>, tail: DrainOut)
    requires s.filter.Some?
    ensures var (t, ret) := DoOutput(s, frames, false, tail);
            && ret == FirstFailure(AllResults(frames, s.streamFound))
            && |t.encoded| == |s.encoded| + Taken(frames, s.streamFound)
    ensures DoOutput(s, frames, true, tail).1 ==
            FirstFailure(AllResults(frames, s.streamFound) + DrainResults(tail))
  {
    FramesResult(Prepare(s), frames);
    DrainResult(EncodeFrames(Prepare(s), frames).0, tail);
    FirstFailureAppend(AllResults(frames, s.streamFound), DrainResults(tail));
  }

  /** The filter has to be built in this iteration: there is none, or an error or a new size asks for one. */
  predicate NeedsFilter(s: State, input: Input)
    requires input.Packet?
  {
    var t := Cropped(s, input.crop);
    t.filter.None? || t.flags.hwError || t.flags.resolution
  }

  predicate InputEnds(s: State, input: Input) {
    match input
    case ReadFails => true
    case EndOfFile(_, _) => true
    case StreamNotFound => false
    case Packet(_, _, writeOk, buildOk, pushOk) => !writeOk || !pushOk || (NeedsFilter(s, input) && !buildOk)
  }

  lemma InputResult(s: State, input: Input)
    ensures ProcessInput(s, input).1 in {Failed, Ended} <==> InputEnds(s, input)
    ensures ProcessInput(s, input).0.stop == s.stop
  {
    if input.Packet? {
      DecodeResult(Cropped(s, input.crop), input.buildOk, input.pushOk);
    }
  }

  lemma DecodeResult(s: State, buildOk: bool, pushOk: bool)
    ensures var (t, ok) := Decode(s, buildOk, pushOk);
            && t.stop == s.stop
            && (ok <==> pushOk && ((s.filter.None? || s.flags.hwError || s.flags.resolution) ==> buildOk))
  {
  }

  lemma WorkedStops(read: (State, InputRet), frames: seq<FrameOut>, tail: DrainOut)
    ensures Worked(read, frames, tail).stop <==> read.0.stop || read.1 in {Failed, Ended}
  {
    OutputStops(read.0, frames, read.1 == Ended, tail);
  }

  /** The loop stops exactly when reading, decoding or filtering fails for good or the input ends. */
  lemma StopsExactly(s: State, it: Iteration)
    requires !s.stop
    ensures RunOnce(s, it).stop <==> it.Working? && InputEnds(ApplyAll(s, it.before), it.input)
  {
    ControlsDrift(s, it.before);
    if it.Working? {
      InputResult(ApplyAll(s, it.before), it.input);
      WorkedStops(ProcessInput(ApplyAll(s, it.before), it.input), it.frames, it.tail);
    }
  }

  lemma OutputStops(s: State, frames: seq<FrameOut>, flush: bool, tail: DrainOut)
    ensures DoOutput(s, frames, flush, tail).0.stop == s.stop
  {
    if s.filter.Some? {
      FramesStop(Prepare(s), frames);
      DrainDrifts(EncodeFrames(Prepare(s), frames).0, tail);
    }
  }

  lemma {:induction false} FramesStop(s: State, frames: seq<FrameOut>)
    ensures EncodeFrames(s, frames).0.stop == s.stop
    decreases |frames|
  {
    if frames != [] {
      if s.filter.Some? && s.encoder.Some? {
        DrainDrifts(Written(s, frames[0].write.Ok?).(streamFound := true), frames[0].drain);
      }
      if EncodeFrame(s, frames[0]).1.Ok? {
        FramesStop(EncodeFrame(s, frames[0]).0, frames[1..]);
      }
    }
  }
}
