/** IrrStreamer::start: the extra-parameter string, the choice of codec, and when both agree. */
module StreamerStart {
  import opened Options
  import opened Strings
  import opened Transcoder
  import TranscoderSafety

  /** Dictionary keys are matched without regard to case. */
  function KeyOf(key: string): Key {
    var k := LowerCase(key);
    if k == "c" then KeyC
    else if k == "codec" then KeyCodec
    else if k == "profile" then KeyProfile
    else if k == "level" then KeyLevel
    else Other(k)
  }

  function StandardText(c: CodecId, p: Plugin): string {
    (match c case HEVC => "hevc" case AV1 => "av1" case _ => "h264") + if p == Qsv then "_qsv" else "_vaapi"
  }

  function NameOf(text: string): Name {
    if text == StandardText(H264, Vaapi) then Standard(H264, Vaapi)
    else if text == StandardText(H264, Qsv) then Standard(H264, Qsv)
    else if text == StandardText(HEVC, Vaapi) then Standard(HEVC, Vaapi)
    else if text == StandardText(HEVC, Qsv) then Standard(HEVC, Qsv)
    else if text == StandardText(AV1, Vaapi) then Standard(AV1, Vaapi)
    else if text == StandardText(AV1, Qsv) then Standard(AV1, Qsv)
    else Text(text)
  }

  // ---------------------------------------------------------------- extra parameters "k=v:k=v"

  /** A piece without '=' is ignored; the key ends at the first '='. */
  function SetPair(props: Props, piece: string): Props {
    match Find(piece, "=", 0)
    case None => props
    case Some(n) => props[KeyOf(piece[..n]) := NameOf(piece[n + 1..])]
  }

  function SetPairs(props: Props, pieces: seq<string>): Props
    decreases |pieces|
  {
    if pieces == [] then props else SetPairs(SetPair(props, pieces[0]), pieces[1..])
  }

  lemma {:induction false} ColonStep(s: string, props: Props)
    ensures match Find(s, ":", 0)
            case None => SetPairs(props, Split(s, ":")) == SetPair(props, s)
            case Some(n) => SetPairs(props, Split(s, ":")) == SetPairs(SetPair(props, s[..n]), Split(s[n + 1..], ":"))
  {
  }

  /** The do-while loop of start: it always looks at one piece, also at the empty one. */
  method ParseExpVidParam(param: string) returns (props: Props)
    ensures props == SetPairs(map[], Split(param, ":"))
  {
    props := map[];
    var rest, first := param, true;
    while first || |rest| > 0
      invariant first ==> rest == param && props == map[]
      invariant SetPairs(props, Split(rest, ":")) == SetPairs(map[], Split(param, ":"))
      decreases |rest|, first
    {
      ColonStep(rest, props);
      var kv;
      var sep := Find(rest, ":", 0);
      if sep.None? {
        kv, rest := rest, "";
      } else {
        kv, rest := rest[..sep.value], rest[sep.value + 1..];
      }
      first := false;
      props := StoreKeyValue(props, kv);
    }
  }

  /** The body of the loop once a piece is cut off: av_dict_set when the piece has an '='. */
  method StoreKeyValue(props: Props, kv: string) returns (stored: Props)
    ensures stored == SetPair(props, kv)
  {
    stored := props;
    var eq := Find(kv, "=", 0);
    if eq.Some? {
      stored := stored[KeyOf(kv[..eq.value]) := NameOf(kv[eq.value + 1..])];
    }
  }

  datatype Pair = Pair(key: string, value: string)

  function Written(pairs: seq<Pair>): (r: seq<string>)
    ensures |r| == |pairs|
    ensures forall i :: 0 <= i < |pairs| ==> r[i] == pairs[i].key + "=" + pairs[i].value
  {
    seq(|pairs|, i requires 0 <= i < |pairs| => pairs[i].key + "=" + pairs[i].value)
  }

  function Stored(props: Props, pairs: seq<Pair>): Props
    decreases |pairs|
  {
    if pairs == [] then props else Stored(props[KeyOf(pairs[0].key) := NameOf(pairs[0].value)], pairs[1..])
  }

  predicate Writable(p: Pair) {
    ':' !in p.key && '=' !in p.key && ':' !in p.value
  }

  lemma PairReads(props: Props, p: Pair)
    requires Writable(p)
    ensures SetPair(props, p.key + "=" + p.value) == props[KeyOf(p.key) := NameOf(p.value)]
  {
    var text, n := p.key + "=" + p.value, |p.key|;
    FindCharacter(text, '=');
    assert text[..n] == p.key && text[n] == '=';
    assert Find(text, "=", 0) == Some(n);
    assert text[n + 1..] == p.value;
  }

  lemma {:induction false} PairsRead(props: Props, pairs: seq<Pair>)
    requires forall p :: p in pairs ==> Writable(p)
    ensures SetPairs(props, Written(pairs)) == Stored(props, pairs)
    decreases |pairs|
  {
    if pairs != [] {
      PairReads(props, pairs[0]);
      assert Written(pairs)[1..] == Written(pairs[1..]);
      PairsRead(props[KeyOf(pairs[0].key) := NameOf(pairs[0].value)], pairs[1..]);
    }
  }

  /** Round trip: pairs written as "k=v" and joined with ':' are stored in order, later ones winning. */
  lemma ParseOfWritten(pairs: seq<Pair>)
    requires forall p :: p in pairs ==> Writable(p)
    ensures SetPairs(map[], Split(Join(Written(pairs), ":"), ":")) == Stored(map[], pairs)
  {
    forall text | text in Written(pairs) ensures ':' !in text && text != "" {
      var i :| 0 <= i < |pairs| && Written(pairs)[i] == text;
      assert pairs[i] in pairs;
    }
    SplittableByCharacter(Written(pairs), ':');
    SplitOfJoin(Written(pairs), ":");
    PairsRead(map[], pairs);
  }

  // ---------------------------------------------------------------- codec choice

  predicate UrlNamesCodec(url: string) {
    "irrv:264" <= url || "irrv:265" <= url || "irrv:av1" <= url
  }

  function UrlCodec(url: string): CodecId {
    if "irrv:264" <= url then H264
    else if "irrv:265" <= url then HEVC
    else if "irrv:av1" <= url then AV1
    else H264
  }

  function PluginOf(plugin: string): Plugin {
    if "qsv" <= plugin then Qsv else Vaapi
  }

  function ExpProps(expVid: Option<string>): Props {
    if expVid.Some? then SetPairs(map[], Split(expVid.value, ":")) else map[]
  }

  /** start creates a transcoder for "irrv..." and for "local...:..." and fails otherwise. */
  predicate Starts(url: string) {
    "irrv" <= url || ("local" <= url && ':' in url)
  }

  function StartConfig(url: string, plugin: string, codec: Option<string>, expVid: Option<string>): Option<Config> {
    if !Starts(url) then None
    else
      var id, p, props := UrlCodec(url), PluginOf(plugin), ExpProps(expVid);
      Some(Config(id, p,
                  if codec.Some? then props[KeyC := NameOf(codec.value)]
                  else if UrlNamesCodec(url) then props[KeyC := EncoderName(id, p)]
                  else props,
                  id))
  }

  /** The codec id, the plugin and the encoder name that each URL, plugin text and explicit codec select. */
  lemma StartChooses(url: string, plugin: string, codec: Option<string>, expVid: Option<string>)
    ensures StartConfig(url, plugin, codec, expVid).Some? <==> "irrv" <= url || ("local" <= url && ':' in url)
    ensures StartConfig(url, plugin, codec, expVid).Some? ==>
              var cfg := StartConfig(url, plugin, codec, expVid).value;
              && cfg.codec == cfg.streamerCodec
              && cfg.codec == (if "irrv:265" <= url then HEVC else if "irrv:av1" <= url then AV1 else H264)
              && cfg.plugin == (if "qsv" <= plugin then Qsv else Vaapi)
              && (codec.Some? ==> KeyC in cfg.props && cfg.props[KeyC] == NameOf(codec.value))
              && (codec.None? ==>
                    if "irrv:264" <= url then
                      KeyC in cfg.props && cfg.props[KeyC] == NameOf(if "qsv" <= plugin then "h264_qsv" else "h264_vaapi")
                    else if "irrv:265" <= url then
                      KeyC in cfg.props && cfg.props[KeyC] == NameOf(if "qsv" <= plugin then "hevc_qsv" else "hevc_vaapi")
                    else if "irrv:av1" <= url then
                      KeyC in cfg.props && cfg.props[KeyC] == NameOf(if "qsv" <= plugin then "av1_qsv" else "av1_vaapi")
                    else cfg.props == ExpProps(expVid))
  {
    StandardNames();
    if "irrv:264" <= url {
      OtherCodecs(url);
    }
  }

  lemma OtherCodecs(url: string)
    requires "irrv:264" <= url
    ensures !("irrv:265" <= url) && !("irrv:av1" <= url)
  {
    assert url[7] == '4';
  }

  lemma StandardNames()
    ensures NameOf("h264_vaapi") == Standard(H264, Vaapi) && NameOf("h264_qsv") == Standard(H264, Qsv)
    ensures NameOf("hevc_vaapi") == Standard(HEVC, Vaapi) && NameOf("hevc_qsv") == Standard(HEVC, Qsv)
    ensures NameOf("av1_vaapi") == Standard(AV1, Vaapi) && NameOf("av1_qsv") == Standard(AV1, Qsv)
  {
    assert StandardText(H264, Vaapi) == "h264_vaapi" && StandardText(H264, Qsv) == "h264_qsv";
    assert StandardText(HEVC, Vaapi) == "hevc_vaapi" && StandardText(HEVC, Qsv) == "hevc_qsv";
    assert StandardText(AV1, Vaapi) == "av1_vaapi" && StandardText(AV1, Qsv) == "av1_qsv";
  }

  /** Different texts are different names. */
  lemma NamesDiffer(a: string, b: string)
    ensures NameOf(a) == NameOf(b) <==> a == b
  {
  }

  /** The keys the loop reads, whatever their case, and no other. */
  lemma KeysExactly(key: string)
    ensures (KeyOf(key) == KeyC <==> LowerCase(key) == "c") && (KeyOf(key) == KeyCodec <==> LowerCase(key) == "codec")
    ensures KeyOf(key) == KeyProfile <==> LowerCase(key) == "profile"
    ensures KeyOf(key) == KeyLevel <==> LowerCase(key) == "level"
  {
  }

  /** doOutput asks for property "c", else "codec", else the codec's own encoder. */
  lemma EncoderChoice(cfg: Config)
    ensures cfg.plugin == Qsv && KeyC !in cfg.props && KeyCodec !in cfg.props ==>
              ChosenEncoder(cfg) == NameOf(match cfg.codec case HEVC => "hevc_qsv" case AV1 => "av1_qsv" case _ => "h264_qsv")
    ensures cfg.plugin == Vaapi && KeyC !in cfg.props && KeyCodec !in cfg.props ==>
              ChosenEncoder(cfg) == NameOf(match cfg.codec case HEVC => "hevc_vaapi" case AV1 => "av1_vaapi" case _ => "h264_vaapi")
    ensures KeyC in cfg.props ==> ChosenEncoder(cfg) == cfg.props[KeyC]
    ensures KeyC !in cfg.props && KeyCodec in cfg.props ==> ChosenEncoder(cfg) == cfg.props[KeyCodec]
  {
    StandardNames();
  }

  /** The encoder named by the extra parameters, if any. */
  function ExpEncoder(props: Props): Option<Name> {
    if KeyC in props then Some(props[KeyC]) else if KeyCodec in props then Some(props[KeyCodec]) else None
  }

  /**
   * After start the chosen encoder is the one of the streamer's codec exactly when an explicit codec names
   * it; or no codec is given and either the URL names the codec or the extra parameters name no other encoder.
   */
  lemma StartAgreesExactly(url: string, plugin: string, codec: Option<string>, expVid: Option<string>)
    requires Starts(url)
    ensures var cfg := StartConfig(url, plugin, codec, expVid).value;
            var expected := EncoderName(UrlCodec(url), PluginOf(plugin));
            TranscoderSafety.Named(cfg) <==>
              match codec
              case Some(c) => NameOf(c) == expected
              case None => UrlNamesCodec(url) || ExpEncoder(ExpProps(expVid)) in {None, Some(expected)}
  {
  }

  /** Codec agreement at every point of every run, after every final flush. */
  ghost predicate AlwaysAgrees(cfg: Config, size: Size) {
    && (forall its :: TranscoderSafety.CodecInv(Run(Started(cfg, size), its)))
    && (forall its, frames, tail :: TranscoderSafety.CodecInv(Finish(Run(Started(cfg, size), its), frames, tail)))
  }

  /**
   * Agreement holds from start through every run exactly when an explicit codec names the codec of the URL; or
   * no codec is given and either the URL names the codec or the extra parameters name no other encoder.
   */
  lemma AgreementFromStart(url: string, plugin: string, codec: Option<string>, expVid: Option<string>, size: Size)
    requires Starts(url)
    ensures var expected := EncoderName(UrlCodec(url), PluginOf(plugin));
            AlwaysAgrees(StartConfig(url, plugin, codec, expVid).value, size) <==>
              match codec
              case Some(c) => NameOf(c) == expected
              case None => UrlNamesCodec(url) || ExpEncoder(ExpProps(expVid)) in {None, Some(expected)}
  {
    StartAgreesExactly(url, plugin, codec, expVid);
    AlwaysAgreesWhenNamed(StartConfig(url, plugin, codec, expVid).value, size);
  }

  lemma AlwaysAgreesWhenNamed(cfg: Config, size: Size)
    ensures AlwaysAgrees(cfg, size) <==> TranscoderSafety.Named(cfg)
  {
    var s := Started(cfg, size);
    if TranscoderSafety.Named(cfg) {
      forall its ensures TranscoderSafety.CodecInv(Run(s, its)) {
        TranscoderSafety.RunKeepsCodec(s, its);
      }
      forall its, frames, tail ensures TranscoderSafety.CodecInv(Finish(Run(s, its), frames, tail)) {
        TranscoderSafety.FinishedRunKeepsCodec(s, its, frames, tail);
      }
    }
    assert Run(s, []) == s;
  }

  /** An explicit codec may contradict the URL: the streamer then reports H.264 and encodes H.265. */
  lemma ExplicitCodecCanDisagree()
    ensures !TranscoderSafety.Named(StartConfig("irrv:264", "vaapi", Some("hevc_vaapi"), None).value)
  {
    assert StandardText(HEVC, Vaapi) == "hevc_vaapi";
    assert StandardText(H264, Vaapi)[1] == '2' && StandardText(H264, Qsv)[1] == '2';
    assert NameOf("hevc_vaapi") == Standard(HEVC, Vaapi);
  }
}
