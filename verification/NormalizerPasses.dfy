/** When one normalisation is enough: exactly which messages the second pass leaves alone. */
module NormalizerPasses {
  import opened Normalizer
  import opened NormalizerLaws
  import opened Text

  /* ---- What the second pass will find, read off the original message ---- */

  /** The message with its schema's fields mirrored, as the second pass will read it. */
  function View(env: Env, m: Fields): (v: Fields) {
    var t := ExtractMessageType(m);
    if t in env.schemas then MirrorAll(WithMeta(m), env.schemas[t]) else m
  }

  predicate ModeChange(m: Fields) {
    Is(m, CommandType, "mode_change") || Is(Meta(m), CommandType, "mode_change")
  }

  /** The second pass will take the message for one of the weather radar's. */
  predicate RadarLater(env: Env, m: Fields) {
    || ExtractMessageType(m) == PRECIPITATION
    || (ExtractMessageType(m) == VIL && !ModeChange(m))
    || IsRadar(View(env, m))
  }

  function RtLater(env: Env, m: Fields): (a: Value) {
    var v := View(env, m);
    if RtFromFrames(env, v) != Nothing then RtFromFrames(env, v) else RtIn(Meta(v), RadarLater(env, m))
  }

  function SubLater(env: Env, m: Fields): (a: Value) {
    var v := View(env, m);
    if HasMeta(v) then SubIn(Meta(v), RadarLater(env, m)) else Nothing
  }

  /** No address that the first pass misses turns up once the metadata is there and mirrored. */
  predicate AddressesFinal(env: Env, m: Fields) {
    && (RtAddress !in m && RtOf(env, m) == Nothing ==> RtLater(env, m) == Nothing)
    && (SubAddress !in m && ExtractSubAddress(m) == Nothing ==> SubLater(env, m) == Nothing)
  }

  predicate ZeroOrAbsent(d: Fields, key: Key) {
    key in d ==> d[key] == Num(0.0)
  }

  /** The data is a list, or its count was given and is zero. */
  predicate CountFinal(m: Fields) {
    || HasList(m, Data)
    || ((DataCount in m || DataCount in Meta(m)) && ZeroOrAbsent(m, DataCount) && ZeroOrAbsent(Meta(m), DataCount))
  }

  /* ---- From the mirrored message to the result of the first pass ---- */

  const CHANGED_FIELDS: set<Key> := {CommandType, CommandName, DataCount, Data}
  const CHANGED_METADATA: set<Key> :=
    {CommandType, CommandName, DataCount, PrecipitationMessage, PrecipitationDataKey, PrecipitationDataNormalized, VilMessage, VilDataAvailable}

  /** The routed and mirrored message. */
  function Stage(env: Env, m: Fields): (s: Fields) {
    var t := ExtractMessageType(m);
    if t in env.schemas then MirrorAll(WithMeta(Routed(env, m)), env.schemas[t]) else Routed(env, m)
  }

  lemma MirrorsAlike(w: Fields, x: Fields, keys: seq<Key>)
    requires HasMeta(w) && HasMeta(x) && Alike(w, x) && Same(w, x, DataCount) && Meta(w) == Meta(x)
    requires Metadata !in keys && RtAddress !in keys && SubAddress !in keys
    ensures Alike(MirrorAll(w, keys), MirrorAll(x, keys))
    ensures Same(MirrorAll(w, keys), MirrorAll(x, keys), DataCount)
    ensures Same(Meta(MirrorAll(w, keys)), Meta(MirrorAll(x, keys)), DataCount)
    ensures Same(x, MirrorAll(x, keys), RtAddress) && Same(x, MirrorAll(x, keys), SubAddress)
  {
    var v, s := MirrorAll(w, keys), MirrorAll(x, keys);
    MirrorAdds(w, keys);
    MirrorAdds(x, keys);
    hide MirrorAll, Meta, HasMeta;
    assert Filled(x, Meta(x), keys, s, RtAddress) && Filled(x, Meta(x), keys, s, SubAddress);
    forall key | key !in {RtAddress, SubAddress, Metadata} ensures Same(v, s, key) {
      assert Same(w, x, key);
      assert Filled(w, Meta(w), keys, v, key) && Filled(x, Meta(x), keys, s, key);
    }
    forall key ensures Same(Meta(v), Meta(s), key) {
      assert key in keys && key != DataCount ==> Same(w, x, key);
      assert Filled(Meta(w), w, keys, Meta(v), key) && Filled(Meta(x), x, keys, Meta(s), key);
    }
  }

  lemma WithMetaAlike(m: Fields, r: Fields)
    requires Alike(m, r) && Meta(m) == Meta(r) && Same(m, r, DataCount)
    ensures var w, x := WithMeta(m), WithMeta(r);
            && Alike(w, x) && Meta(w) == Meta(x) && Same(w, x, DataCount)
            && Same(r, x, RtAddress) && Same(r, x, SubAddress)
  {
    var w, x := WithMeta(m), WithMeta(r);
    forall key | key !in {RtAddress, SubAddress, DataCount, Metadata} ensures Same(w, x, key) {
      assert Same(m, r, key);
    }
  }

  /** The view and the stage differ in the addresses alone, and the stage has those of the routed message. */
  lemma ViewAlike(env: Env, m: Fields)
    requires TableHolds(env)
    ensures var v, s := View(env, m), Stage(env, m);
            && Alike(v, s) && Same(v, s, DataCount) && Same(Meta(v), Meta(s), DataCount)
            && Same(Routed(env, m), s, RtAddress) && Same(Routed(env, m), s, SubAddress)
  {
    var t, r := ExtractMessageType(m), Routed(env, m);
    RoutedAlike(env, m);
    assert Same(m, r, DataCount);
    hide Routed, MirrorAll;
    if t in env.schemas {
      WithMetaAlike(m, r);
      var w, x := WithMeta(m), WithMeta(r);
      hide WithMeta, Alike, Meta;
      MirrorsAlike(w, x, env.schemas[t]);
    }
  }

  lemma PlainStage(env: Env, m: Fields)
    requires TableHolds(env) && ExtractMessageType(m) != PRECIPITATION && ExtractMessageType(m) != VIL
    ensures Normalize(env, m) == Checked(Stage(env, m))
  {
    hide Checked, MirrorAll, Routed;
  }

  lemma VilStage(env: Env, m: Fields)
    requires TableHolds(env) && ExtractMessageType(m) == VIL
    ensures Normalize(env, m) == Checked(Labelled(Stage(env, m), "vil_data", "DISPLAY_VIL_DATA", VilMessage, VilDataAvailable))
    ensures Mirrored(Stage(env, m), RADAR_FIELDS) && Stage(env, m) == MirrorAll(WithMeta(Routed(env, m)), RADAR_FIELDS)
  {
    Apart();
    hide Checked, MirrorAll, Routed, Labelled;
    MirrorSettles(WithMeta(Routed(env, m)), RADAR_FIELDS);
  }

  lemma PrecipitationStage(env: Env, m: Fields)
    requires TableHolds(env) && ExtractMessageType(m) == PRECIPITATION
    ensures Normalize(env, m)
         == Checked(PointsFixed(Labelled(Stage(env, m), "precipitation_data", "DISPLAY_PRECIPITATION_DATA", PrecipitationMessage, PrecipitationDataKey)))
    ensures Mirrored(Stage(env, m), RADAR_FIELDS) && Same(m, Stage(env, m), Data)
    ensures Stage(env, m) == MirrorAll(WithMeta(Routed(env, m)), RADAR_FIELDS)
  {
    hide Checked, MirrorAll, Routed, Labelled, PointsFixed;
    MirroredStage(env, m, RADAR_FIELDS, Stage(env, m));
  }

  lemma ChangedToResult(a: Fields, b: Fields, own: set<Key>, inner: set<Key>)
    requires Changed(a, b, own, inner) && own <= CHANGED_FIELDS && inner <= CHANGED_METADATA
    ensures Changed(a, b, CHANGED_FIELDS, CHANGED_METADATA)
  {
    ChangedWiden(a, b, own, inner, CHANGED_FIELDS, CHANGED_METADATA);
  }

  /** After routing and mirroring, the first pass changes only what it owns. */
  lemma StageChanges(env: Env, m: Fields)
    requires TableHolds(env) && WellTyped(m)
    ensures Changed(Stage(env, m), Normalize(env, m), CHANGED_FIELDS, CHANGED_METADATA)
  {
    hide Normalize, Stage, Labelled, PointsFixed, Checked, Changed, Mirrored, TableHolds, WellTyped, ExtractMessageType;
    var t, s := ExtractMessageType(m), Stage(env, m);
    if t == PRECIPITATION {
      PrecipitationStage(env, m);
      PrecipitationChanges(env, m, s);
    } else if t == VIL {
      VilStage(env, m);
      var l := Labelled(s, "vil_data", "DISPLAY_VIL_DATA", VilMessage, VilDataAvailable);
      LabelledChanges(s, "vil_data", "DISPLAY_VIL_DATA", VilMessage, VilDataAvailable, l);
      ChangedToResult(s, l, {CommandType, CommandName, DataCount}, {CommandType, CommandName, DataCount, VilMessage, VilDataAvailable});
      CheckedChanges(l);
      ChangedToResult(l, Checked(l), {CommandType}, {CommandType});
      ChangedThrough(s, l, Checked(l), CHANGED_FIELDS, CHANGED_METADATA);
    } else {
      PlainStage(env, m);
      CheckedChanges(s);
      ChangedToResult(s, Checked(s), {CommandType}, {CommandType});
    }
  }

  lemma ListedStays(m: Fields, s: Fields)
    requires WellTyped(m) && Same(m, s, Data)
    ensures DataListed(s)
  {
  }

  lemma PrecipitationChanges(env: Env, m: Fields, s: Fields)
    requires WellTyped(m) && Mirrored(s, RADAR_FIELDS) && Same(m, s, Data)
    ensures var l := Labelled(s, "precipitation_data", "DISPLAY_PRECIPITATION_DATA", PrecipitationMessage, PrecipitationDataKey);
            && Changed(s, Checked(PointsFixed(l)), CHANGED_FIELDS, CHANGED_METADATA)
            && Mirrored(l, RADAR_FIELDS) && DataListed(l) && Same(s, l, Data)
  {
    hide Labelled, PointsFixed, Checked, Changed, Mirrored, WellTyped, DataListed;
    var l := Labelled(s, "precipitation_data", "DISPLAY_PRECIPITATION_DATA", PrecipitationMessage, PrecipitationDataKey);
    var own, inner := {CommandType, CommandName, DataCount}, {CommandType, CommandName, DataCount, PrecipitationMessage, PrecipitationDataKey};
    LabelledChanges(s, "precipitation_data", "DISPLAY_PRECIPITATION_DATA", PrecipitationMessage, PrecipitationDataKey, l);
    ChangedSame(s, l, own, inner, Data);
    ListedStays(m, l);
    var p := PointsFixed(l);
    PointsFixedChanges(l, p);
    CheckedChanges(p);
    ChangedToResult(s, l, own, inner);
    ChangedToResult(l, p, {Data, DataCount}, {DataCount, PrecipitationDataNormalized});
    ChangedToResult(p, Checked(p), {CommandType}, {CommandType});
    ChangedThrough(s, l, p, CHANGED_FIELDS, CHANGED_METADATA);
    ChangedThrough(s, p, Checked(p), CHANGED_FIELDS, CHANGED_METADATA);
  }

  /** What the addresses are read from is the same in the view and in the result of the first pass. */
  lemma SourcesStay(env: Env, v: Fields, s: Fields, n: Fields, radar: bool)
    requires Alike(v, s) && Changed(s, n, CHANGED_FIELDS, CHANGED_METADATA)
    ensures RtFromFrames(env, n) == RtFromFrames(env, v)
    ensures RtIn(Meta(n), radar) == RtIn(Meta(v), radar) && SubIn(Meta(n), radar) == SubIn(Meta(v), radar)
    ensures HasMeta(n) == HasMeta(v)
    ensures Same(s, n, RtAddress) && Same(s, n, SubAddress)
  {
    hide HasMeta, Meta, RtFromFrames, RtIn, SubIn;
    StaysTop(v, s, n, Frames);
    StaysTop(v, s, n, StatusWord);
    StaysInside(v, s, n, RtAddress);
    StaysInside(v, s, n, SourceRtAddress);
    StaysInside(v, s, n, RadarType);
    StaysInside(v, s, n, StatusWord);
    StaysInside(v, s, n, SubAddress);
    StaysInside(v, s, n, SubaddressOneWord);
    assert Same(s, n, RtAddress) && Same(s, n, SubAddress);
    hide Alike, Changed;
    SameFrames(env, v, n);
    SameRtIn(Meta(v), Meta(n), radar);
    SameSubIn(Meta(v), Meta(n), radar);
  }

  lemma StaysTop(v: Fields, s: Fields, n: Fields, key: Key)
    requires Alike(v, s) && Changed(s, n, CHANGED_FIELDS, CHANGED_METADATA)
    requires key !in CHANGED_FIELDS && key !in {RtAddress, SubAddress, Metadata}
    ensures Same(v, n, key)
  {
    assert Same(v, s, key) && Same(s, n, key);
  }

  lemma StaysInside(v: Fields, s: Fields, n: Fields, key: Key)
    requires Alike(v, s) && Changed(s, n, CHANGED_FIELDS, CHANGED_METADATA) && key !in CHANGED_METADATA
    ensures Same(Meta(v), Meta(n), key)
  {
    assert Same(Meta(v), Meta(s), key) && Same(Meta(s), Meta(n), key);
  }

  /* ---- The second pass sees a radar message exactly when foretold ---- */

  lemma NamePrecipitation()
    ensures Contains(Lower("precipitation_data"), "precipitation")
  {
    var s := "precipitation_data";
    LowerIdle(s);
    assert StandsAt(s, "precipitation", 0);
  }

  lemma CheckedRadar(b: Fields)
    ensures IsRadar(Checked(b)) == IsRadar(b)
  {
    NamePrecipitation();
    hide Contains, Lower;
    if WronglyComplete(b) {
      var n := Checked(b);
      assert n[CommandType] == Str("precipitation_data");
    }
  }

  lemma VilPrecipitation(s: Fields, l: Fields)
    requires Mirrored(s, RADAR_FIELDS) && CommandTypeGiven(s, l, "vil_data")
    requires Changed(s, l, {CommandType, CommandName, DataCount}, {CommandType, CommandName, DataCount, VilMessage, VilDataAvailable})
    ensures IsPrecipitation(l) == IsPrecipitation(s)
  {
    hide HasMeta, Meta, CommandTypeGiven, Says;
    var d, e := Meta(s), Meta(l);
    assert CommandType in s <==> CommandType in d;
    assert Same(s, l, MessageType) && Same(s, l, Data) && Same(s, l, PrecipitationDataKey);
    assert Same(d, e, MessageType) && Same(d, e, DataType) && Same(d, e, PrecipitationMessage);
    hide Changed, Mirrored;
    GivenSays(s, l);
    SameSays(s, l, MessageType, "precipitation");
    SameSays(d, e, MessageType, "precipitation");
  }

  /** The default command type for integrated liquid data does not speak of precipitation. */
  lemma GivenSays(s: Fields, l: Fields)
    requires CommandTypeGiven(s, l, "vil_data") && (CommandType in s <==> CommandType in Meta(s))
    ensures Says(s, CommandType, "precipitation") || Says(Meta(s), CommandType, "precipitation")
       <==> Says(l, CommandType, "precipitation") || Says(Meta(l), CommandType, "precipitation")
  {
    ShortName();
    hide Contains, Lower, Meta;
  }

  lemma SameSays(d: Fields, e: Fields, key: Key, word: string)
    requires Same(d, e, key)
    ensures Says(d, key, word) == Says(e, key, word)
  {
  }

  /** A flagged message is integrated liquid data unless it reports a mode change. */
  lemma FlaggedVil(l: Fields)
    requires Set(Meta(l), VilMessage, Flag(true))
    ensures IsVil(l) <==> !ModeChange(l)
  {
    hide Says, Is, SampleHas, HasList, Meta;
  }

  lemma VilRadar(env: Env, m: Fields, s: Fields, l: Fields)
    requires s == MirrorAll(WithMeta(Routed(env, m)), RADAR_FIELDS) && Mirrored(s, RADAR_FIELDS)
    requires l == Labelled(s, "vil_data", "DISPLAY_VIL_DATA", VilMessage, VilDataAvailable)
    ensures IsRadar(l) <==> !ModeChange(m) || IsPrecipitation(s)
  {
    assert CommandType in s <==> CommandType in Meta(s);
    hide MirrorAll, WithMeta, Routed, Labelled, Mirrored, Changed, IsPrecipitation, IsVil, Meta, HasMeta, CountRight;
    LabelledChanges(s, "vil_data", "DISPLAY_VIL_DATA", VilMessage, VilDataAvailable, l);
    VilPrecipitation(s, l);
    VilMirrored(env, m, s);
    ModeChangeMirrored(env, m, s);
    FlaggedVil(l);
    assert CommandTypeFrom(m, l) && CommandTypeFrom(m, Meta(l));
    if !ModeChange(m) {
      FromIs(m, l);
      FromIs(m, Meta(l));
    } else {
      Apart();
    }
  }

  /** Mirroring overwrites no command type. */
  lemma ModeChangeMirrored(env: Env, m: Fields, s: Fields)
    requires s == MirrorAll(WithMeta(Routed(env, m)), RADAR_FIELDS)
    ensures Is(m, CommandType, "mode_change") ==> Is(s, CommandType, "mode_change")
    ensures Is(Meta(m), CommandType, "mode_change") ==> Is(Meta(s), CommandType, "mode_change")
  {
    var w := WithMeta(Routed(env, m));
    BeforeMirror(env, m, CommandType);
    MirrorAdds(w, RADAR_FIELDS);
    hide Routed, WithMeta, MirrorAll, HasMeta, Meta;
    assert Filled(w, Meta(w), RADAR_FIELDS, s, CommandType) && Filled(Meta(w), w, RADAR_FIELDS, Meta(s), CommandType);
    hide MirrorOf;
  }

  lemma ModeChangeSeen(m: Fields, keys: seq<Key>)
    requires HasMeta(m) && Metadata !in keys
    ensures ModeChange(m) ==> ModeChange(MirrorAll(m, keys))
  {
    MirrorAdds(m, keys);
    var s := MirrorAll(m, keys);
    hide MirrorAll, Meta, HasMeta;
    assert Filled(m, Meta(m), keys, s, CommandType) && Filled(Meta(m), m, keys, Meta(s), CommandType);
  }

  lemma VilIsNoModeChange(env: Env, m: Fields)
    requires TableHolds(env) && IsVil(View(env, m))
    ensures !ModeChange(m)
  {
    var t := ExtractMessageType(m);
    assert !ModeChange(View(env, m));
    hide IsVil, ExtractMessageType, MirrorAll;
    if t in env.schemas {
      ModeChangeSeen(WithMeta(m), env.schemas[t]);
      assert ModeChange(WithMeta(m)) == ModeChange(m);
    }
  }

  lemma RadarForetold(env: Env, m: Fields)
    requires TableHolds(env) && WellTyped(m)
    ensures IsRadar(Normalize(env, m)) == RadarLater(env, m)
  {
    hide Normalize, Stage, View, Labelled, PointsFixed, Checked, Changed, Mirrored, TableHolds, WellTyped, ExtractMessageType, Alike, ModeChange, Settled;
    var t, s, v := ExtractMessageType(m), Stage(env, m), View(env, m);
    ViewAlike(env, m);
    AlikeTests(v, s);
    if t == PRECIPITATION {
      PassSettles(env, m);
      PrecipitationShows(env, Normalize(env, m));
    } else if t == VIL {
      VilStage(env, m);
      var l := Labelled(s, "vil_data", "DISPLAY_VIL_DATA", VilMessage, VilDataAvailable);
      VilRadar(env, m, s, l);
      CheckedRadar(l);
      if IsVil(v) {
        VilIsNoModeChange(env, m);
      }
    } else {
      PlainStage(env, m);
      CheckedRadar(s);
    }
  }

  lemma PrecipitationShows(env: Env, n: Fields)
    requires Settled(env, n) && ExtractMessageType(n) == PRECIPITATION
    ensures IsRadar(n)
  {
  }

  /* ---- The count ---- */

  lemma CountMirrored(env: Env, m: Fields, s: Fields)
    requires s == MirrorAll(WithMeta(Routed(env, m)), RADAR_FIELDS)
    ensures Set(s, DataCount, Num(0.0)) && Set(Meta(s), DataCount, Num(0.0))
       <==> (DataCount in m || DataCount in Meta(m)) && ZeroOrAbsent(m, DataCount) && ZeroOrAbsent(Meta(m), DataCount)
  {
    var w := WithMeta(Routed(env, m));
    BeforeMirror(env, m, DataCount);
    MirrorAdds(w, RADAR_FIELDS);
    hide Routed, WithMeta, MirrorAll, HasMeta, Meta;
    assert Filled(w, Meta(w), RADAR_FIELDS, s, DataCount) && Filled(Meta(w), w, RADAR_FIELDS, Meta(s), DataCount);
    hide MirrorOf;
  }

  lemma UnlistedLabels(s: Fields, text: string, name: string, flag: Key, flag': Key)
    requires HasMeta(s) && !HasList(s, Data) && flag != DataCount && flag' != DataCount
    ensures var l := Labelled(s, text, name, flag, flag');
            Same(s, l, DataCount) && Same(Meta(s), Meta(l), DataCount) && Same(s, l, Data) && HasMeta(l)
  {
  }

  lemma PointsCounted(l: Fields)
    requires Mirrored(l, RADAR_FIELDS) && HasList(l, Data) && CountRight(l)
    ensures CountRight(PointsFixed(l))
  {
    var items := l[Data].items;
    var fixed := FixItems(items);
    if items == [] {
      assert l[Data := Lst([])] == l;
    } else if !AllPoints(items) && fixed != [] {
      var d := l[Data := Lst(fixed)];
      hide FixItems, AllPoints;
      CountedChanges(d);
      assert Same(d, Counted(d), Data);
    }
  }

  lemma PointsAbsent(l: Fields)
    requires DataListed(l) && !HasList(l, Data)
    ensures CountRight(PointsFixed(l)) <==> Set(l, DataCount, Num(0.0)) && Set(Meta(l), DataCount, Num(0.0))
  {
    assert PointsFixed(l) == l[Data := Lst([])];
  }

  lemma CheckedCount(b: Fields)
    ensures CountRight(Checked(b)) == CountRight(b)
  {
    var n := Checked(b);
    CheckedChanges(b);
    hide Checked, WronglyComplete;
    ChangedSame(b, n, {CommandType}, {CommandType}, Data);
    ChangedSame(b, n, {CommandType}, {CommandType}, DataCount);
  }

  lemma CountForetold(env: Env, m: Fields)
    requires TableHolds(env) && WellTyped(m) && ExtractMessageType(m) == PRECIPITATION
    ensures CountRight(Normalize(env, m)) == CountFinal(m)
  {
    hide Normalize, Stage, Labelled, PointsFixed, Checked, Changed, TableHolds, WellTyped, ExtractMessageType, CountRight, Settled, MirrorAll, Routed, WithMeta;
    var s := Stage(env, m);
    PrecipitationStage(env, m);
    PrecipitationChanges(env, m, s);
    var l := Labelled(s, "precipitation_data", "DISPLAY_PRECIPITATION_DATA", PrecipitationMessage, PrecipitationDataKey);
    CheckedCount(PointsFixed(l));
    if HasList(m, Data) {
      LabelledChanges(s, "precipitation_data", "DISPLAY_PRECIPITATION_DATA", PrecipitationMessage, PrecipitationDataKey, l);
      PointsCounted(l);
    } else {
      CountMirrored(env, m, s);
      UnlistedLabels(s, "precipitation_data", "DISPLAY_PRECIPITATION_DATA", PrecipitationMessage, PrecipitationDataKey);
      PointsAbsent(l);
    }
  }

  /* ---- The theorem ---- */

  lemma RoutedSameIff(env: Env, n: Fields)
    ensures Routed(env, n) == n
       <==> (RtAddress in n || RtOf(env, n) == Nothing) && (SubAddress in n || ExtractSubAddress(n) == Nothing)
  {
    var n1 := SetIf(n, RtAddress, RtOf(env, n));
    assert Alike(n, n1);
    AlikeReads(env, n, n1);
    hide RtOf, ExtractSubAddress, Alike;
    if RtAddress !in n && RtOf(env, n) != Nothing {
      assert RtAddress in Routed(env, n);
    } else {
      assert n1 == n;
      if SubAddress !in n && ExtractSubAddress(n) != Nothing {
        assert SubAddress in Routed(env, n);
      }
    }
  }

  lemma CompletedSameIff(env: Env, n: Fields)
    requires HasMeta(n) || ExtractMessageType(n) != PRECIPITATION
    requires ExtractMessageType(n) == PRECIPITATION ==> HasList(n, Data)
    ensures Completed(env, n) == n
       <==> Routed(env, n) == n && (ExtractMessageType(n) == PRECIPITATION ==> CountRight(n))
  {
    var r := Routed(env, n);
    RoutedAlike(env, n);
    if ExtractMessageType(n) == PRECIPITATION {
      assert Same(n, r, Data);
      CountedAlike(r);
      hide Routed, ExtractMessageType, Alike;
      if Counted(r) == n {
        assert Same(r, n, RtAddress) && Same(r, n, SubAddress);
        RoutedFrom(env, n, r);
      } else if r == n && CountRight(n) {
        CountedIdle(n);
        assert false;
      }
    }
  }

  /** Routing that adds no address changes nothing. */
  lemma RoutedFrom(env: Env, n: Fields, r: Fields)
    requires r == Routed(env, n) && Same(r, n, RtAddress) && Same(r, n, SubAddress)
    ensures r == n
  {
    hide RtOf, ExtractSubAddress;
  }

  lemma AddressesForetold(env: Env, m: Fields)
    requires TableHolds(env) && WellTyped(m)
    ensures var n := Normalize(env, m);
            Routed(env, n) == n <==> AddressesFinal(env, m)
  {
    var v, s, n := View(env, m), Stage(env, m), Normalize(env, m);
    hide Normalize, View, Stage, TableHolds, WellTyped, Changed, Alike, IsRadar, RadarLater, RtFromFrames, RtIn, SubIn;
    ViewAlike(env, m);
    StageChanges(env, m);
    RadarForetold(env, m);
    SourcesStay(env, v, s, n, RadarLater(env, m));
    RoutedSameIff(env, n);
    RoutedHas(env, m);
    hide Routed, RtFromMetadata, Meta, HasMeta;
    assert RtOf(env, n) == RtLater(env, m) by {
      Reads(env, m, n);
    }
    assert ExtractSubAddress(n) == SubLater(env, m) by {
      Reads(env, m, n);
    }
  }

  lemma Reads(env: Env, m: Fields, n: Fields)
    requires var v := View(env, m);
             && RtFromFrames(env, n) == RtFromFrames(env, v) && HasMeta(n) == HasMeta(v) && IsRadar(n) == RadarLater(env, m)
             && RtIn(Meta(n), RadarLater(env, m)) == RtIn(Meta(v), RadarLater(env, m))
             && SubIn(Meta(n), RadarLater(env, m)) == SubIn(Meta(v), RadarLater(env, m))
    ensures RtOf(env, n) == RtLater(env, m) && ExtractSubAddress(n) == SubLater(env, m)
  {
    hide View, RtFromFrames, RtIn, SubIn, RadarLater, IsRadar;
  }

  /** Which addresses the routed message has. */
  lemma RoutedHas(env: Env, m: Fields)
    ensures RtAddress in Routed(env, m) <==> RtAddress in m || RtOf(env, m) != Nothing
    ensures SubAddress in Routed(env, m) <==> SubAddress in m || ExtractSubAddress(m) != Nothing
  {
    var m1 := SetIf(m, RtAddress, RtOf(env, m));
    assert Alike(m, m1);
    AlikeReads(env, m, m1);
    hide RtOf, ExtractSubAddress, Alike;
  }

  /** One pass is enough exactly when no missing address turns up later and, for a precipitation answer, the data
      was a list or counted as none. */
  lemma OnePassIsFinalIff(env: Env, m: Fields)
    requires TableHolds(env) && WellTyped(m)
    ensures Normalize(env, Normalize(env, m)) == Normalize(env, m)
       <==> AddressesFinal(env, m) && (ExtractMessageType(m) == PRECIPITATION ==> CountFinal(m))
  {
    var n := Normalize(env, m);
    hide Normalize, TableHolds, WellTyped, AddressesFinal, CountFinal, Completed, Routed, CountRight;
    PassSettles(env, m);
    SettledPass(env, n);
    AddressesForetold(env, m);
    PrecipitationListed(env, n);
    CompletedSameIff(env, n);
    if ExtractMessageType(m) == PRECIPITATION {
      CountForetold(env, m);
    }
  }

  lemma PrecipitationListed(env: Env, n: Fields)
    requires TableHolds(env) && Settled(env, n)
    ensures ExtractMessageType(n) == PRECIPITATION ==> HasMeta(n) && HasList(n, Data)
  {
    hide ExtractMessageType, WronglyComplete;
  }

  /** A message with both addresses settles in one pass, unless it is a precipitation answer without a list or a count. */
  lemma AddressedSettlesAtOnce(env: Env, m: Fields)
    requires TableHolds(env) && WellTyped(m) && RtAddress in m && SubAddress in m
    ensures Normalize(env, Normalize(env, m)) == Normalize(env, m)
       <==> (ExtractMessageType(m) == PRECIPITATION ==> CountFinal(m))
  {
    OnePassIsFinalIff(env, m);
  }

  /** Missing metadata and data are not the only reasons for a second change: mirroring a data type into metadata
      that is there can make the message a radar's, and the second pass then gives it a subaddress. */
  lemma MirroringNeedsAnotherPass(env: Env, m: Fields, t: string)
    requires TableHolds(env) && t != PRECIPITATION && t != VIL && t in env.schemas && DataType in env.schemas[t]
    requires m == map[MessageType := Str(t), DataType := Str("precipitation"), Metadata := Dict(map[]), Data := Lst([])]
    requires !Contains(Lower(t), "precipitation") && !Contains(Lower(t), "vil")
    ensures Normalize(env, Normalize(env, m)) != Normalize(env, m)
  {
    hide Normalize, View, RadarLater, ExtractSubAddress, Contains, Lower, Routed;
    OnePassIsFinalIff(env, m);
    NotYetRadar(m, t);
    RadarOnceMirrored(env, m, t);
  }

  lemma NotYetRadar(m: Fields, t: string)
    requires m == map[MessageType := Str(t), DataType := Str("precipitation"), Metadata := Dict(map[]), Data := Lst([])]
    requires !Contains(Lower(t), "precipitation") && !Contains(Lower(t), "vil")
    ensures ExtractSubAddress(m) == Nothing && SubAddress !in m && WellTyped(m) && ExtractMessageType(m) == t
  {
    hide Contains, Lower;
  }

  lemma RadarOnceMirrored(env: Env, m: Fields, t: string)
    requires TableHolds(env) && t in env.schemas && DataType in env.schemas[t] && ExtractMessageType(m) == t
    requires m == map[MessageType := Str(t), DataType := Str("precipitation"), Metadata := Dict(map[]), Data := Lst([])]
    ensures SubLater(env, m) != Nothing
  {
    var v, keys := View(env, m), env.schemas[t];
    assert HasMeta(m) && Meta(m) == map[];
    MirrorAdds(m, keys);
    hide MirrorAll, ExtractMessageType, IsVil;
    assert Filled(Meta(m), m, keys, Meta(v), DataType) && Filled(Meta(m), m, keys, Meta(v), SubAddress);
    assert Filled(Meta(m), m, keys, Meta(v), SubaddressOneWord);
    assert Is(Meta(v), DataType, "precipitation");
    hide MirrorOf, Meta, HasMeta;
    assert IsPrecipitation(v);
  }
}
