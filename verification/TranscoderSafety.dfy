/** What every run of the transcoder loop keeps: sizes of filter and encoder, pending changes, and the codec. */
module TranscoderSafety {
  import opened Options
  import opened Transcoder

  // ---------------------------------------------------------------- sizes

  /** Every frame so far was encoded by an encoder of the size of the filter that produced it. */
  ghost predicate SizesAgree(encoded: seq<Encoded>) {
    forall k :: 0 <= k < |encoded| ==> encoded[k].filterSize == encoded[k].encoderSize
  }

  ghost predicate Matched(s: State) {
    s.filter.Some? && s.encoder.Some? && s.encoder.value.size == s.filter.value
  }

  /** Holds everywhere up to the final flush, also in the middle of an iteration. */
  ghost predicate Loose(s: State) {
    && SizesAgree(s.encoded)
    && (s.filter.Some? ==> s.filter.value == s.decSize)
    && (s.accepted && !s.flags.resolution ==> s.decSize == s.newSize)
    && (s.encoder.Some? && !s.flags.hwError && !s.flags.resolution ==> Matched(s))
  }

  /** Holds between iterations of a running loop. */
  ghost predicate Inv(s: State) {
    && Loose(s)
    && (!s.stop ==> (s.encoder.Some? ==> Matched(s)) && (s.accepted && !s.flags.resolution ==> Matched(s)))
  }

  /** What control calls leave alone. */
  ghost predicate Drift(s: State, t: State) {
    && t.stop == s.stop && t.filter == s.filter && t.encoder == s.encoder && t.decSize == s.decSize
    && t.encoded == s.encoded && t.ctrlQueue == s.ctrlQueue && t.flags.hwError == s.flags.hwError
    && t.filterBuild == s.filterBuild && t.encoderBuild == s.encoderBuild && t.streamFound == s.streamFound
    && (s.flags.codec ==> t.flags.codec) && (s.flags.profile ==> t.flags.profile)
    && (t.flags.resolution || (!s.flags.resolution && t.newSize == s.newSize && t.accepted == s.accepted))
    && (s.flags.resolution ==> t.flags.resolution)
  }

  lemma {:induction false} ControlsDrift(s: State, cs: seq<Control>)
    ensures Drift(s, ApplyAll(s, cs))
    decreases |cs|
  {
    if cs != [] {
      assert Drift(s, Apply(s, cs[0]));
      ControlsDrift(Apply(s, cs[0]), cs[1..]);
    }
  }

  /** A successful decode leaves a filter; any filter it leaves has the new size if a change is pending. */
  lemma DecodeKeeps(s: State, buildOk: bool, pushOk: bool)
    requires Loose(s)
    ensures var (t, ok) := Decode(s, buildOk, pushOk);
            && Loose(t) && t.stop == s.stop && t.flags == s.flags && t.newSize == s.newSize
            && (ok ==> t.filter.Some?) && (t.filter.Some? ==> Ready(t))
  {
  }

  /** `t` is ready for doOutput: a filter exists, at the pending size if a change is pending. */
  ghost predicate Ready(t: State) {
    Loose(t) && t.filter.Some? && (t.flags.resolution ==> t.filter == Some(t.newSize))
  }

  lemma InputKeeps(s: State, input: Input)
    requires Inv(s) && !s.stop
    ensures Loose(ProcessInput(s, input).0) && !ProcessInput(s, input).0.stop
    ensures var (t, ret) := ProcessInput(s, input);
            && (ret == Decoded ==> Ready(t)) && (ret == Ended && t.filter.Some? ==> Ready(t)) && (ret == Retry ==> t == s)
    ensures s.flags.resolution ==> ProcessInput(s, input).0.flags.resolution
  {
    if input.Packet? {
      var s1 := Cropped(s, input.crop);
      assert Loose(s1) && !s1.stop && (s.flags.resolution ==> s1.flags.resolution);
      DecodeKeeps(s1, input.buildOk, input.pushOk);
    } else if input.EndOfFile? {
      DecodeKeeps(s, input.buildOk, input.pushOk);
    }
  }

  /** After the flag check, filter and encoder have one size: the pending one if there was a change. */
  lemma PrepareMatches(s: State)
    requires Ready(s)
    ensures Matched(Prepare(s)) && Loose(Prepare(s)) && Prepare(s).flags == NO_FLAGS && Prepare(s).stop == s.stop
    ensures s.flags.resolution ==> Prepare(s).filter == Some(s.newSize) && Prepare(s).encoder.value.size == s.newSize
  {
  }

  lemma {:induction false} PacketsDrift(s: State, packets: seq<PacketOut>)
    ensures Drift(s, WritePackets(s, packets).0)
    decreases |packets|
  {
    if packets != [] {
      ControlsDrift(s, packets[0].controls);
      PacketsDrift(ApplyAll(s, packets[0].controls), packets[1..]);
    }
  }

  lemma DrainDrifts(s: State, d: DrainOut)
    ensures Drift(s, Drain(s, d).0)
  {
    PacketsDrift(s, d.packets);
    PacketsDrift(WritePackets(s, d.packets).0, d.capture);
  }

  /** What encoding frames leaves alone. */
  ghost predicate Steady(s: State, t: State) {
    && t.filterBuild == s.filterBuild && t.encoderBuild == s.encoderBuild
    && t.stop == s.stop && t.filter == s.filter && t.encoder == s.encoder && t.decSize == s.decSize
    && t.flags.hwError == s.flags.hwError
    && (t.flags.resolution || (!s.flags.resolution && t.newSize == s.newSize && t.accepted == s.accepted))
  }

  lemma FrameKeeps(s: State, f: FrameOut)
    requires Matched(s) && SizesAgree(s.encoded)
    ensures Steady(s, EncodeFrame(s, f).0) && SizesAgree(EncodeFrame(s, f).0.encoded)
  {
    var s1 := Written(s, f.write.Ok?);
    assert SizesAgree(s1.encoded);
    DrainDrifts(s1.(streamFound := true), f.drain);
  }

  lemma {:induction false} FramesKeep(s: State, frames: seq<FrameOut>)
    requires Matched(s) && SizesAgree(s.encoded)
    ensures Steady(s, EncodeFrames(s, frames).0) && SizesAgree(EncodeFrames(s, frames).0.encoded)
    decreases |frames|
  {
    if frames != [] {
      FrameKeeps(s, frames[0]);
      if EncodeFrame(s, frames[0]).1.Ok? {
        FramesKeep(EncodeFrame(s, frames[0]).0, frames[1..]);
      }
    }
  }

  lemma OutputKeeps(s: State, frames: seq<FrameOut>, flush: bool, tail: DrainOut)
    requires Ready(s) && !s.stop
    ensures Inv(DoOutput(s, frames, flush, tail).0) && !DoOutput(s, frames, flush, tail).0.stop
  {
    PrepareMatches(s);
    FramesKeep(Prepare(s), frames);
    DrainDrifts(EncodeFrames(Prepare(s), frames).0, tail);
  }

  /** One iteration keeps the invariant. */
  lemma RunOnceKeeps(s: State, it: Iteration)
    requires Inv(s) && !s.stop
    ensures Inv(RunOnce(s, it))
  {
    var s0 := ApplyAll(s, it.before);
    ControlsDrift(s, it.before);
    assert Inv(s0) && !s0.stop;
    if it.Working? {
      InputKeeps(s0, it.input);
      WorkedKeeps(ProcessInput(s0, it.input), it.frames, it.tail);
    }
  }

  lemma WorkedKeeps(read: (State, InputRet), frames: seq<FrameOut>, tail: DrainOut)
    requires Loose(read.0) && !read.0.stop && (read.1 == Retry ==> Inv(read.0))
    requires (read.1 == Decoded ==> Ready(read.0)) && (read.1 == Ended && read.0.filter.Some? ==> Ready(read.0))
    ensures Inv(Worked(read, frames, tail))
  {
    if read.1 in {Ended, Decoded} && read.0.filter.Some? {
      OutputKeeps(read.0, frames, read.1 == Ended, tail);
    }
  }

  lemma {:induction false} RunKeeps(s: State, its: seq<Iteration>)
    requires Inv(s)
    ensures Inv(Run(s, its))
    decreases |its|
  {
    if its != [] && !s.stop {
      RunOnceKeeps(s, its[0]);
      RunKeeps(RunOnce(s, its[0]), its[1..]);
    }
  }

  /** In every run, including the final flush, filter and encoder sizes agree on every encoded frame. */
  lemma EveryFrameSizesAgree(cfg: Config, size: Size, its: seq<Iteration>, frames: seq<FrameOut>, tail: DrainOut)
    ensures SizesAgree(Finish(Run(Started(cfg, size), its), frames, tail).encoded)
  {
    RunKeeps(Started(cfg, size), its);
    var s := Run(Started(cfg, size), its);
    if s.filter.Some? {
      FramesKeep(Prepare(s), frames);
      DrainDrifts(EncodeFrames(Prepare(s), frames).0, tail);
    }
  }

  /**
   * An accepted resolution change is never lost while the loop runs: once the flag is down, filter and
   * encoder both have the size accepted last.
   */
  lemma AcceptedChangeNotLost(cfg: Config, size: Size, its: seq<Iteration>)
    ensures var s := Run(Started(cfg, size), its);
            s.accepted && !s.flags.resolution && !s.stop ==>
              s.filter == Some(s.newSize) && s.encoder.Some? && s.encoder.value.size == s.newSize
  {
    RunKeeps(Started(cfg, size), its);
  }

  /** The iteration that takes the flag down rebuilds both at the pending size before the first frame is encoded. */
  lemma FlagClearedWithRebuild(s: State, input: Input)
    requires Inv(s) && !s.stop
    requires var (t, ret) := ProcessInput(s, input); t.flags.resolution && (ret == Decoded || (ret == Ended && t.filter.Some?))
    ensures var t := ProcessInput(s, input).0;
            && t.filter == Some(t.newSize)
            && !Prepare(t).flags.resolution && Prepare(t).filter == Some(t.newSize)
            && Prepare(t).encoder.Some? && Prepare(t).encoder.value.size == t.newSize
  {
    InputKeeps(s, input);
    PrepareMatches(ProcessInput(s, input).0);
  }

  // ---------------------------------------------------------------- codec

  /** The chosen encoder name is the one that implements the current codec on the enabled plugin. */
  ghost predicate Named(cfg: Config) {
    cfg.streamerCodec == cfg.codec && ChosenEncoder(cfg) == EncoderName(cfg.codec, cfg.plugin)
  }

  ghost predicate CodecInv(s: State) {
    && Named(s.cfg)
    && (s.encoder.Some? && !s.flags.codec ==> s.encoder.value.name == EncoderName(s.cfg.codec, s.cfg.plugin))
  }

  lemma ControlKeepsCodec(s: State, c: Control)
    requires CodecInv(s)
    ensures CodecInv(Apply(s, c))
  {
  }

  lemma {:induction false} ControlsKeepCodec(s: State, cs: seq<Control>)
    requires CodecInv(s)
    ensures CodecInv(ApplyAll(s, cs))
    decreases |cs|
  {
    if cs != [] {
      ControlKeepsCodec(s, cs[0]);
      ControlsKeepCodec(Apply(s, cs[0]), cs[1..]);
    }
  }

  lemma DecodeKeepsCodec(s: State, buildOk: bool, pushOk: bool)
    requires CodecInv(s)
    ensures CodecInv(Decode(s, buildOk, pushOk).0)
  {
  }

  lemma InputKeepsCodec(s: State, input: Input)
    requires CodecInv(s)
    ensures CodecInv(ProcessInput(s, input).0)
  {
    if input.Packet? {
      var s1 := Cropped(s, input.crop);
      assert s1.cfg == s.cfg && s1.encoder == s.encoder && s1.flags.codec == s.flags.codec;
      DecodeKeepsCodec(s1, input.buildOk, input.pushOk);
    } else if input.EndOfFile? {
      DecodeKeepsCodec(s, input.buildOk, input.pushOk);
    }
  }

  lemma {:induction false} PacketsKeepCodec(s: State, packets: seq<PacketOut>)
    requires CodecInv(s)
    ensures CodecInv(WritePackets(s, packets).0)
    decreases |packets|
  {
    if packets != [] {
      ControlsKeepCodec(s, packets[0].controls);
      PacketsKeepCodec(ApplyAll(s, packets[0].controls), packets[1..]);
    }
  }

  lemma DrainKeepsCodec(s: State, d: DrainOut)
    requires CodecInv(s)
    ensures CodecInv(Drain(s, d).0)
  {
    PacketsKeepCodec(s, d.packets);
    PacketsKeepCodec(WritePackets(s, d.packets).0, d.capture);
  }

  lemma FrameKeepsCodec(s: State, f: FrameOut)
    requires CodecInv(s)
    ensures CodecInv(EncodeFrame(s, f).0)
  {
    if s.filter.Some? && s.encoder.Some? {
      DrainKeepsCodec(Written(s, f.write.Ok?).(streamFound := true), f.drain);
    }
  }

  lemma {:induction false} FramesKeepCodec(s: State, frames: seq<FrameOut>)
    requires CodecInv(s)
    ensures CodecInv(EncodeFrames(s, frames).0)
    decreases |frames|
  {
    if frames != [] {
      FrameKeepsCodec(s, frames[0]);
      if EncodeFrame(s, frames[0]).1.Ok? {
        FramesKeepCodec(EncodeFrame(s, frames[0]).0, frames[1..]);
      }
    }
  }

  lemma OutputKeepsCodec(s: State, frames: seq<FrameOut>, flush: bool, tail: DrainOut)
    requires CodecInv(s)
    ensures CodecInv(DoOutput(s, frames, flush, tail).0)
  {
    if s.filter.Some? {
      assert CodecInv(Prepare(s));
      FramesKeepCodec(Prepare(s), frames);
      DrainKeepsCodec(EncodeFrames(Prepare(s), frames).0, tail);
    }
  }

  lemma RunOnceKeepsCodec(s: State, it: Iteration)
    requires CodecInv(s)
    ensures CodecInv(RunOnce(s, it))
  {
    ControlsKeepCodec(s, it.before);
    if it.Working? {
      var read := ProcessInput(ApplyAll(s, it.before), it.input);
      InputKeepsCodec(ApplyAll(s, it.before), it.input);
      OutputKeepsCodec(read.0, it.frames, read.1 == Ended, it.tail);
    }
  }

  /**
   * Codec agreement over every run: streamer and transcoder hold the same codec id, the chosen encoder
   * name is that codec's, and so is the live encoder unless a codec change is pending.
   */
  lemma {:induction false} RunKeepsCodec(s: State, its: seq<Iteration>)
    requires CodecInv(s)
    ensures CodecInv(Run(s, its))
    decreases |its|
  {
    if its != [] && !s.stop {
      RunOnceKeepsCodec(s, its[0]);
      RunKeepsCodec(RunOnce(s, its[0]), its[1..]);
    }
  }

  /** The same with the final flush, which may rebuild the encoder. */
  lemma FinishedRunKeepsCodec(s: State, its: seq<Iteration>, frames: seq<FrameOut>, tail: DrainOut)
    requires CodecInv(s)
    ensures CodecInv(Finish(Run(s, its), frames, tail))
  {
    RunKeepsCodec(s, its);
    OutputKeepsCodec(Run(s, its), frames, true, tail);
  }

  /** Whatever names were configured, an accepted change to a different codec restores agreement. */
  lemma CodecChangeRestoresAgreement(s: State, codec: CodecId)
    requires (codec == H264 || codec == HEVC) && codec != s.cfg.codec
    ensures CodecInv(Apply(s, ChangeCodec(codec))) && Apply(s, ChangeCodec(codec)).cfg.codec == codec
  {
  }
}
