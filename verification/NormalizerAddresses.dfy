/** Where the addresses of a normalised message come from: the frames the bus controller builds, a status word, the
    metadata, or the radar's own. */
module NormalizerAddresses {
  import opened Binary
  import opened Normalizer
  import opened NormalizerLaws
  import opened Text
  import opened Wrappers
  import Frames
  import Messages

  /** The environment reads five binary digits as `int(s, 2)` does. */
  ghost predicate ReadsBinary(env: Env) {
    forall s :: |s| == 5 && AllBits(s) ==> env.parse(s) == Some(Parse(s))
  }

  /** The command frame the bus controller builds for a message. */
  function CommandFrame(message: Messages.Message): (frame: string) {
    Frames.AddSyncAndParity(Messages.CommandWord(message), true)
  }

  predicate Addressed(message: Messages.Message) {
    message.rtAddress <= 31 && message.subAddress <= 31 && message.wordCount <= 31
  }

  /** A command frame starts with the command sync and carries the address in its bits 3 to 7. */
  lemma FrameCarriesAddress(message: Messages.Message)
    requires Addressed(message)
    ensures var f := CommandFrame(message);
            |f| == 20 && f[..3] == "100" && AllBits(f[3..8]) && Parse(f[3..8]) == message.rtAddress
  {
    var word, f := Messages.CommandWord(message), CommandFrame(message);
    Messages.CommandWordParts(message);
    Frames.FramedWordIsValid(word, true);
    ParseFormat(message.rtAddress, 5);
    assert f[3..8] == f[3..19][..5];
    assert Frames.COMMAND_SYNC == f[..3];
  }

  lemma AddressOfFrame(env: Env, message: Messages.Message)
    requires ReadsBinary(env) && Addressed(message)
    ensures AddressIn(env, Str(CommandFrame(message))) == Num(message.rtAddress as real)
  {
    FrameCarriesAddress(message);
    hide CommandFrame, Parse, AllBits;
  }

  lemma Kept(env: Env, m: Fields)
    requires TableHolds(env)
    ensures RtAddress in Routed(env, m) ==> RtAddress in Normalize(env, m) && Normalize(env, m)[RtAddress] == Routed(env, m)[RtAddress]
    ensures SubAddress in Routed(env, m) ==> SubAddress in Normalize(env, m) && Normalize(env, m)[SubAddress] == Routed(env, m)[SubAddress]
  {
    hide Routed, Normalize, TableHolds;
    RoutedIsKept(env, m);
  }

  /** Of a message without an address, the normaliser finds the very address the bus controller was given for the
      frame in front; or else, when there are no frames, for the status word. */
  lemma AddressFromFrame(env: Env, m: Fields, message: Messages.Message)
    requires TableHolds(env) && ReadsBinary(env) && Addressed(message) && RtAddress !in m
    requires if Frames in m then HasList(m, Frames) && m[Frames].items != [] && m[Frames].items[0] == Str(CommandFrame(message))
             else StatusWord in m && m[StatusWord] == Str(CommandFrame(message))
    ensures RtAddress in Normalize(env, m) && Normalize(env, m)[RtAddress] == Num(message.rtAddress as real)
  {
    AddressOfFrame(env, message);
    Kept(env, m);
    hide AddressIn, Normalize, RtFromMetadata, ExtractSubAddress, TableHolds, CommandFrame;
  }

  /** No frame and no status word tells an address, and the message has none of its own. */
  predicate Unaddressed(m: Fields) {
    Frames !in m && StatusWord !in m && RtAddress !in m && SubAddress !in m
  }

  /** Addresses written in the metadata are taken over, the subaddress under either of its two names. */
  lemma AddressesFromMetadata(env: Env, m: Fields)
    requires TableHolds(env) && Unaddressed(m)
    requires RtAddress in Meta(m) && Meta(m)[RtAddress] != Nothing
    requires SubAddress in Meta(m) || SubaddressOneWord in Meta(m)
    requires SubAddress in Meta(m) ==> Meta(m)[SubAddress] != Nothing
    requires SubaddressOneWord in Meta(m) ==> Meta(m)[SubaddressOneWord] != Nothing
    ensures var n := Normalize(env, m);
            && RtAddress in n && n[RtAddress] == Meta(m)[RtAddress]
            && SubAddress in n
            && n[SubAddress] == if SubAddress in Meta(m) then Meta(m)[SubAddress] else Meta(m)[SubaddressOneWord]
  {
    Kept(env, m);
    assert Meta(m[RtAddress := Meta(m)[RtAddress]]) == Meta(m);
    hide Normalize, TableHolds, IsRadar;
  }

  /** A status word that has been taken apart already tells its address, at top level or, failing any other, inside
      the metadata. */
  lemma AddressOfParsedStatus(env: Env, m: Fields, status: Fields)
    requires TableHolds(env) && Frames !in m && RtAddress !in m && RtAddress in status && status[RtAddress] != Nothing
    requires || (StatusWord in m && m[StatusWord] == Dict(status))
             || (StatusWord !in m && Meta(m).Keys !! {RtAddress, SourceRtAddress, RadarType}
                 && StatusWord in Meta(m) && Meta(m)[StatusWord] == Dict(status))
    ensures RtAddress in Normalize(env, m) && Normalize(env, m)[RtAddress] == status[RtAddress]
  {
    Kept(env, m);
    hide Normalize, TableHolds, IsRadar, ExtractSubAddress;
  }

  /** The source address in the metadata counts for the radar's messages only. */
  lemma SourceCountsForRadar(env: Env, m: Fields)
    requires TableHolds(env) && Unaddressed(m) && Meta(m).Keys !! {RtAddress, StatusWord}
    requires SourceRtAddress in Meta(m) && Meta(m)[SourceRtAddress] != Nothing
    ensures if IsPrecipitation(m) || IsVil(m) then
              RtAddress in Normalize(env, m) && Normalize(env, m)[RtAddress] == Meta(m)[SourceRtAddress]
            else RtAddress !in Routed(env, m)
  {
    Kept(env, m);
    hide Normalize, TableHolds, IsPrecipitation, IsVil, ExtractSubAddress;
  }

  /** Data of the weather radar that says so in its metadata and nothing else comes from terminal 9, subaddress 1. */
  lemma RadarAddresses(env: Env, m: Fields)
    requires TableHolds(env) && Unaddressed(m)
    requires Meta(m).Keys !! {RtAddress, SourceRtAddress, SubAddress, SubaddressOneWord}
    requires Is(Meta(m), RadarType, "weather_radar")
    requires Is(Meta(m), DataType, "precipitation")
          || (Is(Meta(m), DataType, "vil") && !Is(m, CommandType, "mode_change") && !Is(Meta(m), CommandType, "mode_change"))
    ensures var n := Normalize(env, m);
            && RtAddress in n && n[RtAddress] == Num(9.0)
            && SubAddress in n && n[SubAddress] == Num(1.0)
  {
    Kept(env, m);
    var r := m[RtAddress := Num(9.0)];
    assert Meta(r) == Meta(m);
    assert IsRadar(m) && IsRadar(r);
    hide Normalize, TableHolds, IsRadar;
  }

  /** Signs of the radar's liquid data: the metadata says so, the command type does, or the points look like it. */
  predicate ShowsVil(m: Fields) {
    || Is(Meta(m), DataType, "vil") || Is(m, CommandType, "vil_data") || Is(Meta(m), CommandType, "vil_data")
    || HasList(m, VilData)
    || (HasList(m, Data) && m[Data].items != []
        && (forall i :: 0 <= i < |m[Data].items| && i < 5 ==> m[Data].items[i].Dict?)
        && {Position, Amount, LayerCount} <= m[Data].items[0].entries.Keys)
  }

  lemma VilDataSaysVil()
    ensures Contains(Lower("vil_data"), "vil")
  {
    LowerIdle("vil_data");
    assert StandsAt("vil_data", "vil", 0);
  }

  lemma ShownVilIsVil(m: Fields)
    requires ShowsVil(m) && !Is(m, CommandType, "mode_change") && !Is(Meta(m), CommandType, "mode_change")
    ensures IsVil(m)
  {
    VilDataSaysVil();
    hide Lower, Contains;
  }

  /** A message without any type that shows a sign of liquid data is normalised as the radar's liquid answer. */
  lemma VilRecognised(env: Env, m: Fields)
    requires TableHolds(env) && WellTyped(m) && MessageType !in m && MessageType !in Meta(m)
    requires ShowsVil(m) && !IsPrecipitation(m)
    requires !Is(m, CommandType, "mode_change") && !Is(Meta(m), CommandType, "mode_change")
    ensures var n := Normalize(env, m);
            && ExtractMessageType(n) == "weather_radarVILResponse"
            && CommandType in n && CommandName in n
            && On(Meta(n), VilMessage) && On(Meta(n), VilDataAvailable)
  {
    ShownVilIsVil(m);
    hide ShowsVil;
    assert ExtractMessageType(m) == VIL;
    assert VIL in env.schemas && VIL != PRECIPITATION;
    hide Normalize, TableHolds, WellTyped, ExtractMessageType, IsVil, IsPrecipitation;
    PassSettles(env, m);
  }
}
