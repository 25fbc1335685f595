/** What repeated normalisation does: the second pass is final. */
module NormalizerLaws {
  import opened Normalizer
  import opened Text

  /* ---- Two dictionaries that look alike to everything that reads them ---- */

  predicate Same(d: Fields, e: Fields, key: Key) {
    (key in d <==> key in e) && (key in d ==> d[key] == e[key])
  }

  /** Equal but for the addresses and the data count. */
  ghost predicate Alike(a: Fields, b: Fields) {
    && HasMeta(a) == HasMeta(b)
    && (forall key :: key !in {RtAddress, SubAddress, DataCount, Metadata} ==> Same(a, b, key))
    && (forall key :: key != DataCount ==> Same(Meta(a), Meta(b), key))
  }

  lemma AlikeTests(a: Fields, b: Fields)
    requires Alike(a, b)
    ensures IsPrecipitation(a) == IsPrecipitation(b)
    ensures IsVil(a) == IsVil(b)
    ensures IsRadar(a) == IsRadar(b)
  {
    var d, e := Meta(a), Meta(b);
    hide Contains, Lower, HasMeta, Meta, Truthy, IsPrecipitation, IsVil;
    assert Same(a, b, MessageType) && Same(a, b, CommandType) && Same(a, b, Data) && Same(a, b, PrecipitationDataKey) && Same(a, b, VilData);
    assert Same(d, e, MessageType) && Same(d, e, CommandType) && Same(d, e, DataType) && Same(d, e, PrecipitationMessage) && Same(d, e, VilMessage);
    hide Alike;
    SamePrecipitation(a, b);
    SameVil(a, b);
  }

  lemma SamePrecipitation(a: Fields, b: Fields)
    requires Same(a, b, MessageType) && Same(a, b, CommandType) && Same(a, b, Data) && Same(a, b, PrecipitationDataKey)
    requires var d, e := Meta(a), Meta(b);
             Same(d, e, MessageType) && Same(d, e, CommandType) && Same(d, e, DataType) && Same(d, e, PrecipitationMessage)
    ensures IsPrecipitation(a) == IsPrecipitation(b)
  {
    hide Contains, Lower, Meta, Truthy;
  }

  lemma SameVil(a: Fields, b: Fields)
    requires Same(a, b, MessageType) && Same(a, b, CommandType) && Same(a, b, Data) && Same(a, b, VilData)
    requires var d, e := Meta(a), Meta(b);
             Same(d, e, MessageType) && Same(d, e, CommandType) && Same(d, e, DataType) && Same(d, e, VilMessage)
    ensures IsVil(a) == IsVil(b)
  {
    hide Contains, Lower, Meta, Truthy;
  }

  lemma SameFrames(env: Env, a: Fields, b: Fields)
    requires Same(a, b, Frames) && Same(a, b, StatusWord)
    ensures RtFromFrames(env, a) == RtFromFrames(env, b)
  {
    hide AddressIn;
  }

  lemma SameRtIn(d: Fields, e: Fields, radar: bool)
    requires Same(d, e, RtAddress) && Same(d, e, SourceRtAddress) && Same(d, e, RadarType) && Same(d, e, StatusWord)
    ensures RtIn(d, radar) == RtIn(e, radar)
  {
  }

  lemma SameSubIn(d: Fields, e: Fields, radar: bool)
    requires Same(d, e, SubAddress) && Same(d, e, SubaddressOneWord)
    ensures SubIn(d, radar) == SubIn(e, radar)
  {
  }

  lemma AlikeFrames(env: Env, a: Fields, b: Fields)
    requires Alike(a, b)
    ensures RtFromFrames(env, a) == RtFromFrames(env, b)
  {
    hide AddressIn, HasMeta, Meta, RtFromFrames;
    SameFrames(env, a, b);
  }

  lemma AlikeMetadataAddress(a: Fields, b: Fields)
    requires Alike(a, b)
    ensures RtFromMetadata(a) == RtFromMetadata(b)
  {
    hide IsRadar, HasMeta, Meta, RtIn;
    AlikeTests(a, b);
    SameRtIn(Meta(a), Meta(b), IsRadar(a));
  }

  lemma AlikeSubAddress(a: Fields, b: Fields)
    requires Alike(a, b)
    ensures ExtractSubAddress(a) == ExtractSubAddress(b)
  {
    hide IsRadar, HasMeta, Meta, SubIn;
    AlikeTests(a, b);
    SameSubIn(Meta(a), Meta(b), IsRadar(a));
  }

  lemma AlikeType(a: Fields, b: Fields)
    requires Alike(a, b)
    ensures ExtractMessageType(a) == ExtractMessageType(b)
    ensures WronglyComplete(a) == WronglyComplete(b)
  {
    AlikeTests(a, b);
    hide IsPrecipitation, IsVil, HasMeta, Meta, Truthy;
    assert Same(a, b, MessageType) && Same(a, b, CommandType) && Same(a, b, IsTransferComplete);
    assert Same(Meta(a), Meta(b), MessageType);
  }

  lemma AlikeReads(env: Env, a: Fields, b: Fields)
    requires Alike(a, b)
    ensures IsPrecipitation(a) == IsPrecipitation(b)
    ensures ExtractMessageType(a) == ExtractMessageType(b)
    ensures RtOf(env, a) == RtOf(env, b)
    ensures ExtractSubAddress(a) == ExtractSubAddress(b)
    ensures WronglyComplete(a) == WronglyComplete(b)
  {
    AlikeTests(a, b);
    AlikeFrames(env, a, b);
    AlikeMetadataAddress(a, b);
    AlikeSubAddress(a, b);
    AlikeType(a, b);
    hide IsPrecipitation, IsVil, RtFromFrames, RtFromMetadata, ExtractSubAddress, ExtractMessageType, WronglyComplete, Alike;
  }

  lemma AlikeTransitive(a: Fields, b: Fields, c: Fields)
    requires Alike(a, b) && Alike(b, c)
    ensures Alike(a, c)
  {
    hide HasMeta, Meta;
    forall key | key !in {RtAddress, SubAddress, DataCount, Metadata} ensures Same(a, c, key) {
      assert Same(a, b, key) && Same(b, c, key);
    }
    forall key | key != DataCount ensures Same(Meta(a), Meta(c), key) {
      assert Same(Meta(a), Meta(b), key) && Same(Meta(b), Meta(c), key);
    }
  }

  lemma RoutedAlike(env: Env, m: Fields)
    ensures Alike(m, Routed(env, m))
    ensures Meta(Routed(env, m)) == Meta(m)
    ensures forall key :: key != RtAddress && key != SubAddress ==> Same(m, Routed(env, m), key)
  {
    hide RtOf, ExtractSubAddress;
  }

  lemma CountedAlike(m: Fields)
    requires HasMeta(m)
    ensures Alike(m, Counted(m))
    ensures HasMeta(Counted(m))
    ensures forall key :: key != DataCount && key != Metadata ==> Same(m, Counted(m), key)
    ensures HasList(m, Data) ==> CountRight(Counted(m))
  {
  }

  predicate CountRight(m: Fields) {
    && HasList(m, Data)
    && Same(map[DataCount := Num(|m[Data].items| as real)], m, DataCount)
    && Same(map[DataCount := Num(|m[Data].items| as real)], Meta(m), DataCount)
  }

  /** Counting right counts changes nothing. */
  lemma CountedIdle(m: Fields)
    requires HasMeta(m) && (HasList(m, Data) ==> CountRight(m))
    ensures Counted(m) == m
  {
    if HasList(m, Data) {
      var v := Num(|m[Data].items| as real);
      assert m[DataCount := v] == m;
      SetMetaIdle(m, DataCount, v);
    }
  }

  lemma SetMetaIdle(m: Fields, key: Key, v: Value)
    requires HasMeta(m) && key in Meta(m) && Meta(m)[key] == v
    ensures SetMeta(m, key, v) == m
  {
    assert Meta(m)[key := v] == Meta(m);
  }

  /** A dictionary already routed is not routed again, whatever became of its counts. */
  lemma RoutedIdle(env: Env, m: Fields, x: Fields)
    requires Alike(Routed(env, m), x)
    requires Same(Routed(env, m), x, RtAddress) && Same(Routed(env, m), x, SubAddress)
    ensures Routed(env, x) == x
  {
    var m1 := SetIf(m, RtAddress, RtOf(env, m));
    assert Alike(m, m1);
    RoutedAlike(env, m);
    AlikeTransitive(m, Routed(env, m), x);
    AlikeReads(env, m, m1);
    AlikeReads(env, m, x);
    hide RtOf, ExtractSubAddress, Alike;
  }

  /* ---- Mirroring makes the two dictionaries agree on which listed fields they have ---- */

  /** The result has its own fields, and the listed ones of the other that it lacks. */
  predicate Filled(own: Fields, other: Fields, keys: seq<Key>, result: Fields, key: Key) {
    && (key in result <==> key in own || (key in keys && key in other))
    && (key in result ==> result[key] == if key in own then own[key] else other[key])
  }

  ghost predicate MirrorOf(m: Fields, keys: seq<Key>, m': Fields) {
    && HasMeta(m')
    && (forall key :: key != Metadata ==> Filled(m, Meta(m), keys, m', key))
    && (forall key :: Filled(Meta(m), m, keys, Meta(m'), key))
  }

  /** Mirroring adds to each dictionary exactly the listed fields it lacks and the other has, and overwrites nothing. */
  lemma {:induction false} MirrorAdds(m: Fields, keys: seq<Key>)
    requires HasMeta(m) && Metadata !in keys
    ensures MirrorOf(m, keys, MirrorAll(m, keys))
  {
    if keys != [] {
      var front, key := keys[..|keys| - 1], keys[|keys| - 1];
      assert keys == front + [key];
      MirrorAdds(m, front);
      MirrorOne(m, front, key, MirrorAll(m, front));
    }
  }

  lemma MirrorOne(m: Fields, front: seq<Key>, key: Key, m1: Fields)
    requires HasMeta(m) && Metadata !in front && key != Metadata
    requires MirrorOf(m, front, m1)
    ensures MirrorOf(m, front + [key], Mirror(m1, key))
  {
    var keys, m2 := front + [key], Mirror(m1, key);
    assert HasMeta(m2);
    MirrorKey(m1, key);
    assert Filled(m, Meta(m), front, m1, key) && Filled(Meta(m), m, front, Meta(m1), key);
    hide Meta, HasMeta, Mirror;
    forall k | k != Metadata ensures Filled(m, Meta(m), keys, m2, k) {
      assert Filled(m, Meta(m), front, m1, k) && Filled(m1, Meta(m1), [key], m2, k);
    }
    forall k ensures Filled(Meta(m), m, keys, Meta(m2), k) {
      assert Filled(Meta(m), m, front, Meta(m1), k) && Filled(Meta(m1), m1, [key], Meta(m2), k);
    }
  }

  lemma MirrorKey(m: Fields, key: Key)
    requires HasMeta(m) && key != Metadata
    ensures forall k :: k != Metadata ==> Filled(m, Meta(m), [key], Mirror(m, key), k)
    ensures forall k :: Filled(Meta(m), m, [key], Meta(Mirror(m, key)), k)
  {
  }

  ghost predicate Mirrored(m: Fields, keys: seq<Key>) {
    HasMeta(m) && forall key :: key in keys ==> (key in m <==> key in Meta(m))
  }

  lemma MirrorSettles(m: Fields, keys: seq<Key>)
    requires HasMeta(m) && Metadata !in keys
    ensures Mirrored(MirrorAll(m, keys), keys)
  {
    MirrorAdds(m, keys);
  }

  lemma {:induction false} MirrorIdle(m: Fields, keys: seq<Key>)
    requires Mirrored(m, keys)
    ensures MirrorAll(m, keys) == m
  {
    if keys != [] {
      MirrorIdle(m, keys[..|keys| - 1]);
    }
  }

  /* ---- Point lists ---- */

  lemma FixItemIdle(item: Value)
    requires Usable(item)
    ensures FixItem(FixItem(item)) == FixItem(item)
  {
    var once, twice := FixItem(item), FixItem(FixItem(item));
    assert twice.entries == once.entries;
  }

  /** Putting a list of points in order a second time changes nothing. */
  lemma {:induction false} FixItemsIdle(items: seq<Value>)
    ensures FixItems(FixItems(items)) == FixItems(items)
    ensures forall i :: 0 <= i < |FixItems(items)| ==> Usable(FixItems(items)[i])
  {
    if items != [] {
      var n := |items| - 1;
      FixItemsIdle(items[..n]);
      if Usable(items[n]) {
        FixItemIdle(items[n]);
        var fixed := FixItems(items[..n]);
        assert (fixed + [FixItem(items[n])])[..|fixed|] == fixed;
      }
    }
  }

  /** A number, a flag counting as one or zero. */
  function AsNumber(v: Value): (x: real)
  {
    match v
    case Num(number) => number
    case Flag(flag) => if flag then 1.0 else 0.0
    case _ => 0.0
  }

  /** The elements of a list or a tuple. */
  function Elements(v: Value): (items: seq<Value>)
  {
    match v
    case Lst(items) => items
    case Tup(elements) => elements
    case _ => []
  }

  /** A fixed point has the item's own position, type, rate, intensity and display flag, zero or off when it has none,
      and nothing else. */
  ghost predicate OwnPoint(item: Value, fixed: Value) {
    && item.Dict? && fixed.Dict?
    && var d, f := item.entries, fixed.entries;
       && f.Keys == {Position, Type, Rate, Intensity, ShowValues} && Position in d && Type in d
       && f[Type] == d[Type]
       && (if d[Position].Lst? then f[Position] == Tup(Elements(d[Position])) else f[Position] == d[Position])
       && (forall key :: key in {Rate, Intensity} ==>
             f[key] == Num(if key in d then AsNumber(d[key]) else 0.0))
       && (f[ShowValues] == Flag(true) <==> ShowValues in d && Truthy(d[ShowValues]))
       && (f[ShowValues] == Flag(false) <==> !(ShowValues in d && Truthy(d[ShowValues])))
  }

  lemma FixedIsOwn(item: Value)
    requires Usable(item) && WellTypedItem(item)
    ensures OwnPoint(item, FixItem(item))
  {
  }

  /** The place of item k's point in the fixed list: how many usable items stand before it. */
  function PlaceOf(items: seq<Value>, k: nat): (p: nat)
    requires k <= |items|
  {
    if k == 0 then 0 else PlaceOf(items, k - 1) + (if Usable(items[k - 1]) then 1 else 0)
  }

  lemma {:induction false} PlaceInFront(items: seq<Value>, n: nat, k: nat)
    requires k <= n <= |items|
    ensures PlaceOf(items[..n], k) == PlaceOf(items, k)
  {
    if k > 0 {
      PlaceInFront(items, n, k - 1);
    }
  }

  /** The fixed list has one point for every usable item, its own, in the order of the items, and no other. */
  lemma {:induction false} PointsAreTheirOwn(items: seq<Value>)
    requires WellTypedItems(items)
    ensures |FixItems(items)| == PlaceOf(items, |items|)
    ensures forall k :: 0 <= k < |items| && Usable(items[k]) ==>
              PlaceOf(items, k) < |FixItems(items)| && OwnPoint(items[k], FixItems(items)[PlaceOf(items, k)])
  {
    hide OwnPoint, FixItem, WellTypedItem, Usable;
    if items != [] {
      var n := |items| - 1;
      var front := items[..n];
      PointsAreTheirOwn(front);
      PlaceInFront(items, n, n);
      if Usable(items[n]) {
        FixedIsOwn(items[n]);
      }
      forall k | 0 <= k < |items| && Usable(items[k])
        ensures PlaceOf(items, k) < |FixItems(items)| && OwnPoint(items[k], FixItems(items)[PlaceOf(items, k)])
      {
        if k < n {
          PlaceInFront(items, n, k);
          assert front[k] == items[k];
        }
      }
    }
  }

  /* ---- A settled message: only addresses and a count may still be missing ---- */

  predicate Set(d: Fields, key: Key, v: Value) {
    key in d && d[key] == v
  }

  predicate Labels(m: Fields, flag: Key, flag': Key) {
    CommandType in m && CommandName in m && Set(Meta(m), flag, Flag(true)) && Set(Meta(m), flag', Flag(true))
  }

  predicate PointsDone(m: Fields) {
    && HasList(m, Data)
    && var items := m[Data].items;
       || items == [] || AllPoints(items) || FixItems(items) == []
       || (FixItems(items) == items && Set(Meta(m), PrecipitationDataNormalized, Flag(true)))
  }

  ghost predicate Settled(env: Env, m: Fields) {
    var t := ExtractMessageType(m);
    && (t in env.schemas ==> Mirrored(m, env.schemas[t]))
    && (t == PRECIPITATION ==> Labels(m, PrecipitationMessage, PrecipitationDataKey) && PointsDone(m))
    && (t == VIL ==> Labels(m, VilMessage, VilDataAvailable) && (HasList(m, Data) ==> CountRight(m)))
    && !WronglyComplete(m)
  }

  /** What one more pass adds to a settled message. */
  function Completed(env: Env, m: Fields): (m': Fields) {
    if ExtractMessageType(m) == PRECIPITATION then Counted(Routed(env, m)) else Routed(env, m)
  }

  lemma LabelledIdle(m: Fields, commandType: string, commandName: string, flag: Key, flag': Key)
    requires HasMeta(m) && Labels(m, flag, flag') && flag != DataCount && flag' != DataCount
    ensures Labelled(m, commandType, commandName, flag, flag') == Counted(m)
  {
    var counted := Counted(m);
    CountedAlike(m);
    hide Counted, Alike;
    assert Same(Meta(m), Meta(counted), flag) && Same(Meta(m), Meta(counted), flag') by {
      AlikeMeta(m, counted, flag);
      AlikeMeta(m, counted, flag');
    }
    SetMetaIdle(counted, flag, Flag(true));
    SetMetaIdle(counted, flag', Flag(true));
  }

  lemma AlikeMeta(a: Fields, b: Fields, key: Key)
    requires Alike(a, b) && key != DataCount
    ensures Same(Meta(a), Meta(b), key)
  {
  }

  lemma PointsFixedIdle(m: Fields)
    requires HasMeta(m) && PointsDone(m) && CountRight(m)
    ensures PointsFixed(m) == m
  {
    hide FixItems, CountRight;
    var items := m[Data].items;
    assert m[Data := Lst(items)] == m;
    if items != [] && !AllPoints(items) && FixItems(items) != [] {
      CountedIdle(m);
      SetMetaIdle(m, PrecipitationDataNormalized, Flag(true));
    }
  }

  lemma MirroredRouted(env: Env, m: Fields, keys: seq<Key>)
    requires Mirrored(m, keys) && RtAddress !in keys && SubAddress !in keys && Metadata !in keys
    ensures Mirrored(Routed(env, m), keys)
  {
    RoutedAlike(env, m);
    hide Routed, HasMeta;
    var r := Routed(env, m);
    forall key | key in keys ensures key in r <==> key in Meta(r) {
      assert Same(m, r, key);
    }
    assert HasMeta(r) by { AlikeHasMeta(m, r); }
  }

  lemma AlikeHasMeta(a: Fields, b: Fields)
    requires Alike(a, b)
    ensures HasMeta(a) == HasMeta(b)
  {
  }

  /** One more pass over a settled message only completes it. */
  lemma SettledPass(env: Env, m: Fields)
    requires TableHolds(env) && Settled(env, m)
    ensures Normalize(env, m) == Completed(env, m)
    ensures Alike(m, Completed(env, m))
  {
    var t, r := ExtractMessageType(m), Routed(env, m);
    RoutedAlike(env, m);
    AlikeReads(env, m, r);
    hide Routed, WronglyComplete, ExtractMessageType, Alike, Counted, Labelled, FixItems, AllPoints;
    if t in env.schemas {
      MirroredRouted(env, m, env.schemas[t]);
      MirrorIdle(r, env.schemas[t]);
      if t == PRECIPITATION || t == VIL {
        RadarPass(env, m, r, t);
      }
    }
  }

  lemma RadarPass(env: Env, m: Fields, r: Fields, t: string)
    requires TableHolds(env) && Settled(env, m) && r == Routed(env, m) && t == ExtractMessageType(m)
    requires t == PRECIPITATION || t == VIL
    requires MirrorAll(r, env.schemas[t]) == r && HasMeta(r) && Alike(m, r) && !WronglyComplete(r)
    ensures Normalize(env, m) == Completed(env, m)
    ensures Alike(m, Completed(env, m))
  {
    var c := Counted(r);
    RoutedAlike(env, m);
    assert Same(m, r, Data) && Same(m, r, CommandType) && Same(m, r, CommandName);
    CountedAlike(r);
    assert Same(r, c, Data);
    assert Same(Meta(r), Meta(c), PrecipitationDataNormalized) by {
      AlikeMeta(r, c, PrecipitationDataNormalized);
    }
    AlikeTransitive(m, r, c);
    AlikeReads(env, m, c);
    hide Routed, WronglyComplete, ExtractMessageType, Alike, Counted, FixItems, AllPoints, CountRight;
    assert WithMeta(r) == r;
    if t == PRECIPITATION {
      LabelledIdle(r, "precipitation_data", "DISPLAY_PRECIPITATION_DATA", PrecipitationMessage, PrecipitationDataKey);
      PointsFixedIdle(c);
    } else {
      LabelledIdle(r, "vil_data", "DISPLAY_VIL_DATA", VilMessage, VilDataAvailable);
      RightCounts(m, r);
      CountedIdle(r);
    }
  }

  lemma RightCounts(m: Fields, r: Fields)
    requires Meta(r) == Meta(m) && Same(m, r, Data) && Same(m, r, DataCount)
    ensures HasList(m, Data) && CountRight(m) ==> CountRight(r)
  {
  }

  /* ---- A completed message is settled and complete ---- */

  lemma SetBothMirrored(m: Fields, key: Key, v: Value, keys: seq<Key>)
    requires Mirrored(m, keys) && key != Metadata && Metadata !in keys
    ensures Mirrored(SetBoth(m, key, v), keys)
  {
  }

  lemma CountedMirrored(m: Fields, keys: seq<Key>)
    requires Mirrored(m, keys) && Metadata !in keys
    ensures Mirrored(Counted(m), keys)
  {
    if HasList(m, Data) {
      SetBothMirrored(m, DataCount, Num(|m[Data].items| as real), keys);
    }
  }

  lemma LabelsAlike(a: Fields, b: Fields, flag: Key, flag': Key)
    requires Labels(a, flag, flag') && flag != DataCount && flag' != DataCount && Alike(a, b)
    ensures Labels(b, flag, flag')
  {
    assert Same(a, b, CommandType) && Same(a, b, CommandName);
    assert Same(Meta(a), Meta(b), flag) && Same(Meta(a), Meta(b), flag');
  }

  lemma PointsDoneAlike(a: Fields, b: Fields)
    requires PointsDone(a) && Alike(a, b)
    ensures PointsDone(b)
  {
    assert Same(a, b, Data);
    assert Same(Meta(a), Meta(b), PrecipitationDataNormalized);
  }

  lemma CompletedMirrored(env: Env, m: Fields, keys: seq<Key>)
    requires Mirrored(m, keys) && RtAddress !in keys && SubAddress !in keys && Metadata !in keys
    ensures Mirrored(Completed(env, m), keys)
  {
    hide Routed, Counted, Mirrored, ExtractMessageType;
    MirroredRouted(env, m, keys);
    CountedMirrored(Routed(env, m), keys);
  }

  lemma CompletedCounts(env: Env, m: Fields)
    requires ExtractMessageType(m) == VIL
    ensures HasList(m, Data) == HasList(Completed(env, m), Data)
    ensures HasList(m, Data) && CountRight(m) ==> CountRight(Completed(env, m))
  {
    var r := Routed(env, m);
    RoutedAlike(env, m);
    assert Same(m, r, Data) && Same(m, r, DataCount);
    hide Routed, CountRight;
    Apart();
    RightCounts(m, r);
  }

  lemma CompletedSettled(env: Env, m: Fields)
    requires TableHolds(env) && Settled(env, m)
    ensures Settled(env, Completed(env, m))
  {
    hide Routed, WronglyComplete, ExtractMessageType, Alike, Counted, Mirrored, Completed, PointsDone, CountRight, Labels, HasList;
    var t, c := ExtractMessageType(m), Completed(env, m);
    SettledPass(env, m);
    AlikeReads(env, m, c);
    if t in env.schemas {
      CompletedMirrored(env, m, env.schemas[t]);
    }
    if t == PRECIPITATION {
      Apart();
      LabelsAlike(m, c, PrecipitationMessage, PrecipitationDataKey);
      PointsDoneAlike(m, c);
    } else if t == VIL {
      CompletedCounts(env, m);
      LabelsAlike(m, c, VilMessage, VilDataAvailable);
    }
  }

  lemma CountedTwice(r: Fields)
    requires HasMeta(r)
    ensures Counted(Counted(r)) == Counted(r)
    ensures Same(r, Counted(r), RtAddress) && Same(r, Counted(r), SubAddress)
    ensures Alike(r, Counted(r))
  {
    CountedAlike(r);
    assert Same(r, Counted(r), Data);
    hide CountRight;
    CountedIdle(Counted(r));
  }

  lemma CompletedTwice(env: Env, m: Fields)
    requires TableHolds(env) && Settled(env, m)
    ensures Completed(env, Completed(env, m)) == Completed(env, m)
  {
    var t, r, c := ExtractMessageType(m), Routed(env, m), Completed(env, m);
    SettledPass(env, m);
    AlikeReads(env, m, c);
    if t == PRECIPITATION {
      MirroredRouted(env, m, env.schemas[t]);
      CountedTwice(r);
    } else {
      AlikeSelf(r);
    }
    hide Routed, Counted, ExtractMessageType, Settled, Alike;
    RoutedIdle(env, m, c);
  }

  lemma AlikeSelf(m: Fields)
    ensures Alike(m, m)
  {
  }

  /* ---- One pass settles any message ---- */

  predicate Explicit(m: Fields) {
    MessageType in m || MessageType in Meta(m)
  }

  /** The second message names the type the first one names, if any. */
  predicate TypeCarried(a: Fields, b: Fields) {
    && (Explicit(a) <==> Explicit(b))
    && (Explicit(a) ==> ExtractMessageType(a) == ExtractMessageType(b))
  }

  /** Equal but for the named keys, in the message and in its metadata. */
  ghost predicate Changed(a: Fields, b: Fields, own: set<Key>, inner: set<Key>) {
    && HasMeta(a) == HasMeta(b)
    && (forall key :: key !in own && key != Metadata ==> Same(a, b, key))
    && (forall key :: key !in inner ==> Same(Meta(a), Meta(b), key))
  }

  lemma ChangedCarries(a: Fields, b: Fields, own: set<Key>, inner: set<Key>)
    requires Changed(a, b, own, inner) && MessageType !in own && MessageType !in inner
    ensures TypeCarried(a, b)
  {
    assert Same(a, b, MessageType) && Same(Meta(a), Meta(b), MessageType);
  }

  lemma MirrorCarries(m: Fields, keys: seq<Key>)
    requires HasMeta(m) && Metadata !in keys
    ensures TypeCarried(m, MirrorAll(m, keys))
  {
    var m' := MirrorAll(m, keys);
    MirrorAdds(m, keys);
    assert Filled(m, Meta(m), keys, m', MessageType) && Filled(Meta(m), m, keys, Meta(m'), MessageType);
  }

  lemma WithMetaCarries(m: Fields)
    ensures TypeCarried(m, WithMeta(m))
  {
  }

  lemma CarriesThrough(a: Fields, b: Fields, c: Fields)
    requires TypeCarried(a, b) && TypeCarried(b, c)
    ensures TypeCarried(a, c)
  {
  }

  lemma CheckedChanges(m: Fields)
    ensures Changed(m, Checked(m), {CommandType}, {CommandType})
    ensures !WronglyComplete(Checked(m))
    ensures CommandType in Checked(m) <==> CommandType in m
  {
    hide IsPrecipitation;
    if WronglyComplete(m) {
      assert Checked(m)[CommandType] == Str("precipitation_data");
      Apart();
    }
  }

  lemma Apart()
    ensures "precipitation_data" != "transfer_complete"
    ensures "vil_data" != "mode_change"
    ensures PRECIPITATION != VIL && PRECIPITATION != UNKNOWN && VIL != UNKNOWN
  {
    assert |"precipitation_data"| == 18 && |"transfer_complete"| == 17 && |"vil_data"| == 8 && |"mode_change"| == 11;
    assert |PRECIPITATION| == 34 && |VIL| == 24 && |UNKNOWN| == 7;
  }

  lemma CheckedMirrored(m: Fields, keys: seq<Key>)
    requires Mirrored(m, keys) && Metadata !in keys
    ensures Mirrored(Checked(m), keys)
  {
    SetBothMirrored(m, CommandType, Str("precipitation_data"), keys);
  }

  lemma DefaultChanges(m: Fields, key: Key, text: string, keys: seq<Key>)
    requires Mirrored(m, keys) && key != Metadata && Metadata !in keys
    ensures Changed(m, Default(m, key, text), {key}, {key})
    ensures Mirrored(Default(m, key, text), keys)
    ensures key in Default(m, key, text)
    ensures key in m ==> Default(m, key, text) == m
    ensures key !in m ==> Set(Default(m, key, text), key, Str(text)) && Set(Meta(Default(m, key, text)), key, Str(text))
  {
    SetBothMirrored(m, key, Str(text), keys);
  }

  lemma ChangedThrough(a: Fields, b: Fields, c: Fields, own: set<Key>, inner: set<Key>)
    requires Changed(a, b, own, inner) && Changed(b, c, own, inner)
    ensures Changed(a, c, own, inner)
  {
    hide HasMeta, Meta;
    forall key | key !in own && key != Metadata ensures Same(a, c, key) {
      assert Same(a, b, key) && Same(b, c, key);
    }
    forall key | key !in inner ensures Same(Meta(a), Meta(c), key) {
      assert Same(Meta(a), Meta(b), key) && Same(Meta(b), Meta(c), key);
    }
  }

  lemma ChangedWiden(a: Fields, b: Fields, own: set<Key>, inner: set<Key>, own': set<Key>, inner': set<Key>)
    requires Changed(a, b, own, inner) && own <= own' && inner <= inner'
    ensures Changed(a, b, own', inner')
  {
  }

  lemma CountedChanges(m: Fields)
    requires HasMeta(m)
    ensures Changed(m, Counted(m), {DataCount}, {DataCount})
    ensures HasList(m, Data) ==> CountRight(Counted(m))
  {
  }

  lemma FlagsChange(m: Fields, flag: Key, flag': Key, keys: seq<Key>)
    requires Mirrored(m, keys) && flag !in keys && flag' !in keys
    ensures var f := SetMeta(SetMeta(m, flag, Flag(true)), flag', Flag(true));
            && Changed(m, f, {}, {flag, flag'}) && Mirrored(f, keys)
            && Set(Meta(f), flag, Flag(true)) && Set(Meta(f), flag', Flag(true))
  {
  }

  lemma ChangedSame(a: Fields, b: Fields, own: set<Key>, inner: set<Key>, key: Key)
    requires Changed(a, b, own, inner) && key != Metadata && key !in own
    ensures Same(a, b, key)
    ensures key !in inner ==> Same(Meta(a), Meta(b), key)
  {
  }

  lemma CountRightSame(a: Fields, b: Fields)
    requires CountRight(a) && Same(a, b, Data) && Same(a, b, DataCount) && Same(Meta(a), Meta(b), DataCount)
    ensures CountRight(b)
  {
  }

  lemma CountAndFlag(m: Fields, flag: Key, flag': Key)
    requires Mirrored(m, RADAR_FIELDS) && flag !in RADAR_FIELDS && flag' !in RADAR_FIELDS
    ensures var l := SetMeta(SetMeta(Counted(m), flag, Flag(true)), flag', Flag(true));
            && Changed(m, l, {DataCount}, {DataCount, flag, flag'})
            && Mirrored(l, RADAR_FIELDS) && (HasList(m, Data) ==> CountRight(l))
            && Set(Meta(l), flag, Flag(true)) && Set(Meta(l), flag', Flag(true))
  {
    var c := Counted(m);
    var l := SetMeta(SetMeta(c, flag, Flag(true)), flag', Flag(true));
    CountedChanges(m);
    CountedMirrored(m, RADAR_FIELDS);
    FlagsChange(c, flag, flag', RADAR_FIELDS);
    assert flag != DataCount && flag' != DataCount;
    hide Counted, SetMeta, HasMeta, Meta, Mirrored, CountRight;
    ChangedWiden(m, c, {DataCount}, {DataCount}, {DataCount}, {DataCount, flag, flag'});
    ChangedWiden(c, l, {}, {flag, flag'}, {DataCount}, {DataCount, flag, flag'});
    ChangedSame(m, c, {DataCount}, {DataCount}, Data);
    ChangedSame(c, l, {}, {flag, flag'}, Data);
    ChangedSame(c, l, {}, {flag, flag'}, DataCount);
    hide Changed;
    ChangedThrough(m, c, l, {DataCount}, {DataCount, flag, flag'});
    if HasList(m, Data) {
      CountRightSame(c, l);
    }
  }

  /** Naming, counting and flagging, after the command type. */
  lemma TailChanges(m: Fields, name: string, flag: Key, flag': Key, d: Fields, l: Fields)
    requires Mirrored(m, RADAR_FIELDS) && flag !in RADAR_FIELDS && flag' !in RADAR_FIELDS
    requires d == Default(m, CommandName, name) && l == SetMeta(SetMeta(Counted(d), flag, Flag(true)), flag', Flag(true))
    ensures Changed(m, l, {CommandName, DataCount}, {CommandName, DataCount, flag, flag'})
    ensures Mirrored(l, RADAR_FIELDS) && (CommandType in m ==> Labels(l, flag, flag'))
    ensures HasList(m, Data) ==> CountRight(l)
  {
    hide Default, Counted, SetMeta, HasMeta, Meta, Mirrored, CountRight, Changed;
    var own, inner := {CommandName, DataCount}, {CommandName, DataCount, flag, flag'};
    DefaultChanges(m, CommandName, name, RADAR_FIELDS);
    CountAndFlag(d, flag, flag');
    ChangedSame(m, d, {CommandName}, {CommandName}, CommandType);
    ChangedSame(m, d, {CommandName}, {CommandName}, Data);
    ChangedSame(d, l, {DataCount}, {DataCount, flag, flag'}, CommandType);
    ChangedSame(d, l, {DataCount}, {DataCount, flag, flag'}, CommandName);
    ChangedWiden(m, d, {CommandName}, {CommandName}, own, inner);
    ChangedWiden(d, l, {DataCount}, {DataCount, flag, flag'}, own, inner);
    ChangedThrough(m, d, l, own, inner);
  }

  ghost predicate CommandTypeGiven(m: Fields, l: Fields, text: string) {
    if CommandType in m then Same(m, l, CommandType) && Same(Meta(m), Meta(l), CommandType)
    else Set(l, CommandType, Str(text)) && Set(Meta(l), CommandType, Str(text))
  }

  lemma LabelledChanges(m: Fields, text: string, name: string, flag: Key, flag': Key, l: Fields)
    requires Mirrored(m, RADAR_FIELDS) && flag !in RADAR_FIELDS && flag' !in RADAR_FIELDS
    requires l == Labelled(m, text, name, flag, flag')
    ensures Changed(m, l, {CommandType, CommandName, DataCount}, {CommandType, CommandName, DataCount, flag, flag'})
    ensures Mirrored(l, RADAR_FIELDS) && Labels(l, flag, flag')
    ensures HasList(m, Data) ==> CountRight(l)
    ensures CommandTypeGiven(m, l, text)
  {
    hide Default, Counted, SetMeta, HasMeta, Meta, Mirrored, CountRight, Changed, Labels;
    var own, inner := {CommandType, CommandName, DataCount}, {CommandType, CommandName, DataCount, flag, flag'};
    var d := Default(m, CommandType, text);
    DefaultChanges(m, CommandType, text, RADAR_FIELDS);
    TailChanges(d, name, flag, flag', Default(d, CommandName, name), l);
    assert flag != CommandType && flag' != CommandType;
    ChangedSame(m, d, {CommandType}, {CommandType}, Data);
    ChangedSame(d, l, {CommandName, DataCount}, {CommandName, DataCount, flag, flag'}, CommandType);
    ChangedWiden(m, d, {CommandType}, {CommandType}, own, inner);
    ChangedWiden(d, l, {CommandName, DataCount}, {CommandName, DataCount, flag, flag'}, own, inner);
    ChangedThrough(m, d, l, own, inner);
  }

  predicate DataListed(m: Fields) {
    Data in m ==> m[Data].Lst? || !Truthy(m[Data])
  }

  lemma SetPoints(m: Fields, items: seq<Value>, d: Fields, c: Fields, p: Fields)
    requires Mirrored(m, RADAR_FIELDS) && FixItems(items) == items
    requires d == m[Data := Lst(items)] && c == Counted(d) && p == SetMeta(c, PrecipitationDataNormalized, Flag(true))
    ensures Changed(m, p, {Data, DataCount}, {DataCount, PrecipitationDataNormalized})
    ensures Mirrored(p, RADAR_FIELDS) && PointsDone(p)
  {
    assert Mirrored(d, RADAR_FIELDS) && Changed(m, d, {Data}, {});
    CountedMirrored(d, RADAR_FIELDS);
    CountedChanges(d);
    hide Counted, CountRight, FixItems, AllPoints;
    NormalizedFlag(c, p);
    ChangedSame(d, c, {DataCount}, {DataCount}, Data);
    ChangedSame(c, p, {}, {PrecipitationDataNormalized}, Data);
    var own, inner := {Data, DataCount}, {DataCount, PrecipitationDataNormalized};
    hide SetMeta, Mirrored, HasMeta, Meta;
    ChangedWiden(m, d, {Data}, {}, own, inner);
    ChangedWiden(d, c, {DataCount}, {DataCount}, own, inner);
    ChangedWiden(c, p, {}, {PrecipitationDataNormalized}, own, inner);
    hide Changed;
    ChangedThrough(m, d, c, own, inner);
    ChangedThrough(m, c, p, own, inner);
  }

  lemma NormalizedFlag(c: Fields, p: Fields)
    requires Mirrored(c, RADAR_FIELDS) && p == SetMeta(c, PrecipitationDataNormalized, Flag(true))
    ensures Changed(c, p, {}, {PrecipitationDataNormalized}) && Mirrored(p, RADAR_FIELDS)
    ensures Set(Meta(p), PrecipitationDataNormalized, Flag(true))
  {
  }

  lemma PointsFixedChanges(m: Fields, p: Fields)
    requires Mirrored(m, RADAR_FIELDS) && DataListed(m) && p == PointsFixed(m)
    ensures Changed(m, p, {Data, DataCount}, {DataCount, PrecipitationDataNormalized})
    ensures Mirrored(p, RADAR_FIELDS) && PointsDone(p)
  {
    if DataListed(m) && Data in m && Truthy(m[Data]) {
      var items := m[Data].items;
      var fixed := FixItems(items);
      if !AllPoints(items) && fixed != [] {
        FixItemsIdle(items);
        var d := m[Data := Lst(fixed)];
        SetPoints(m, fixed, d, Counted(d), p);
      }
    }
  }

  /** The final check keeps everything a settled message needs, and leaves nothing for itself to do. */
  lemma CheckedKeeps(b: Fields, n: Fields, keys: seq<Key>, flag: Key, flag': Key)
    requires n == Checked(b) && Mirrored(b, keys) && Metadata !in keys && flag != CommandType && flag' != CommandType
    ensures Mirrored(n, keys) && TypeCarried(b, n) && !WronglyComplete(n)
    ensures Labels(b, flag, flag') ==> Labels(n, flag, flag')
    ensures PointsDone(b) ==> PointsDone(n)
    ensures HasList(n, Data) == HasList(b, Data)
    ensures CountRight(b) ==> CountRight(n)
  {
    hide Checked, Mirrored, TypeCarried, WronglyComplete, FixItems, HasMeta, Meta, Changed;
    CheckedChanges(b);
    CheckedMirrored(b, keys);
    ChangedCarries(b, n, {CommandType}, {CommandType});
    ChangedSame(b, n, {CommandType}, {CommandType}, CommandName);
    ChangedSame(b, n, {CommandType}, {CommandType}, Data);
    ChangedSame(b, n, {CommandType}, {CommandType}, DataCount);
    MetaSame(b, n, {CommandType}, {CommandType}, flag);
    MetaSame(b, n, {CommandType}, {CommandType}, flag');
    MetaSame(b, n, {CommandType}, {CommandType}, PrecipitationDataNormalized);
  }

  lemma MetaSame(a: Fields, b: Fields, own: set<Key>, inner: set<Key>, key: Key)
    requires Changed(a, b, own, inner) && key !in inner
    ensures Same(Meta(a), Meta(b), key)
  {
  }

  lemma FlagShows(n: Fields)
    requires !Explicit(n) && Set(Meta(n), PrecipitationMessage, Flag(true))
    ensures ExtractMessageType(n) == PRECIPITATION
  {
  }

  /** Everything up to the mirrored fields: type, command type and data are carried over. */
  lemma MirroredStage(env: Env, m: Fields, keys: seq<Key>, s: Fields)
    requires Metadata !in keys && s == MirrorAll(WithMeta(Routed(env, m)), keys)
    ensures Mirrored(s, keys) && TypeCarried(m, s)
    ensures Data !in keys ==> Same(m, s, Data)
  {
    var r := Routed(env, m);
    var w := WithMeta(r);
    RoutedAlike(env, m);
    assert Same(m, r, MessageType) && Same(m, r, Data);
    assert TypeCarried(m, r);
    WithMetaCarries(r);
    MirrorCarries(w, keys);
    MirrorSettles(w, keys);
    MirrorAdds(w, keys);
    assert Filled(w, Meta(w), keys, s, Data);
    hide Routed, WithMeta, MirrorAll, Mirrored, TypeCarried, MirrorOf;
    CarriesThrough(m, r, w);
    CarriesThrough(m, w, s);
  }

  lemma PrecipitationSettles(env: Env, m: Fields)
    requires TableHolds(env) && WellTyped(m) && ExtractMessageType(m) == PRECIPITATION
    ensures ExtractMessageType(Normalize(env, m)) == PRECIPITATION
    ensures Settled(env, Normalize(env, m))
  {
    var s := MirrorAll(WithMeta(Routed(env, m)), RADAR_FIELDS);
    var l := Labelled(s, "precipitation_data", "DISPLAY_PRECIPITATION_DATA", PrecipitationMessage, PrecipitationDataKey);
    assert Checked(PointsFixed(l)) == Normalize(env, m);
    assert DataListed(m);
    PrecipitationStages(env, m, s, l);
  }

  lemma PrecipitationStages(env: Env, m: Fields, s: Fields, l: Fields)
    requires TableHolds(env) && DataListed(m) && ExtractMessageType(m) == PRECIPITATION
    requires s == MirrorAll(WithMeta(Routed(env, m)), RADAR_FIELDS)
    requires l == Labelled(s, "precipitation_data", "DISPLAY_PRECIPITATION_DATA", PrecipitationMessage, PrecipitationDataKey)
    ensures ExtractMessageType(Checked(PointsFixed(l))) == PRECIPITATION
    ensures Settled(env, Checked(PointsFixed(l)))
  {
    hide MirrorAll, WithMeta, Routed, Labelled, PointsFixed, Checked, Mirrored, HasMeta, Meta, Changed, TypeCarried, Settled, PointsDone, Labels, Truthy;
    var own := {CommandType, CommandName, DataCount};
    var inner := {CommandType, CommandName, DataCount, PrecipitationMessage, PrecipitationDataKey};
    MirroredStage(env, m, RADAR_FIELDS, s);
    LabelledChanges(s, "precipitation_data", "DISPLAY_PRECIPITATION_DATA", PrecipitationMessage, PrecipitationDataKey, l);
    ChangedSame(s, l, own, inner, Data);
    ChangedCarries(s, l, own, inner);
    assert DataListed(l);
    PointsFixedChanges(l, PointsFixed(l));
    PrecipitationEnds(env, m, s, l, PointsFixed(l), Checked(PointsFixed(l)));
  }

  lemma PrecipitationEnds(env: Env, m: Fields, s: Fields, l: Fields, p: Fields, n: Fields)
    requires TableHolds(env) && ExtractMessageType(m) == PRECIPITATION
    requires TypeCarried(m, s) && TypeCarried(s, l) && Labels(l, PrecipitationMessage, PrecipitationDataKey)
    requires Changed(l, p, {Data, DataCount}, {DataCount, PrecipitationDataNormalized})
    requires Mirrored(p, RADAR_FIELDS) && PointsDone(p) && n == Checked(p)
    ensures ExtractMessageType(n) == PRECIPITATION
    ensures Settled(env, n)
  {
    var own, inner := {Data, DataCount}, {DataCount, PrecipitationDataNormalized};
    hide Checked, Mirrored, WronglyComplete, HasMeta, Meta, FixItems, AllPoints;
    ChangedCarries(l, p, own, inner);
    ChangedSame(l, p, own, inner, CommandType);
    ChangedSame(l, p, own, inner, CommandName);
    ChangedSame(l, p, own, inner, PrecipitationMessage);
    ChangedSame(l, p, own, inner, PrecipitationDataKey);
    CheckedKeeps(p, n, RADAR_FIELDS, PrecipitationMessage, PrecipitationDataKey);
    hide Changed, PointsDone, ExtractMessageType, Explicit;
    assert TypeCarried(m, n);
    Apart();
    if !Explicit(n) {
      FlagShows(n);
    }
  }

  /** Each command type of the second message is one the first had, or the default for integrated liquid data. */
  predicate CommandTypeFrom(m: Fields, d: Fields) {
    CommandType in d ==>
      || (CommandType in m && d[CommandType] == m[CommandType])
      || (CommandType in Meta(m) && d[CommandType] == Meta(m)[CommandType])
      || d[CommandType] == Str("vil_data")
  }

  lemma FromSays(m: Fields, d: Fields)
    requires CommandTypeFrom(m, d)
    requires !Says(m, CommandType, "precipitation") && !Says(Meta(m), CommandType, "precipitation")
    ensures !Says(d, CommandType, "precipitation")
  {
    hide Contains, Meta;
    ShortName();
  }

  lemma ShortName()
    ensures !Contains(Lower("vil_data"), "precipitation")
  {
    assert |Lower("vil_data")| == 8 && |"precipitation"| == 13;
  }

  lemma FromIs(m: Fields, d: Fields)
    requires CommandTypeFrom(m, d)
    requires !Is(m, CommandType, "mode_change") && !Is(Meta(m), CommandType, "mode_change")
    ensures !Is(d, CommandType, "mode_change")
  {
    hide Meta;
    Apart();
  }

  /** A message detected as integrated liquid data stays detected as that, and as nothing else. */
  lemma VilStays(m: Fields, l: Fields)
    requires !Explicit(l) && !IsPrecipitation(m) && IsVil(m)
    requires CommandTypeFrom(m, l) && CommandTypeFrom(m, Meta(l))
    requires Same(Meta(m), Meta(l), PrecipitationMessage) && Same(Meta(m), Meta(l), DataType)
    requires Same(m, l, Data) && Same(m, l, PrecipitationDataKey) && Set(Meta(l), VilMessage, Flag(true))
    ensures !IsPrecipitation(l) && IsVil(l)
  {
    FromSays(m, l);
    FromSays(m, Meta(l));
    FromIs(m, l);
    FromIs(m, Meta(l));
    hide Contains, Lower, CommandTypeFrom, Meta;
  }

  /** What mirroring the radar fields leaves to be read. */
  lemma VilMirrored(env: Env, m: Fields, s: Fields)
    requires s == MirrorAll(WithMeta(Routed(env, m)), RADAR_FIELDS)
    ensures CommandTypeFrom(m, s) && CommandTypeFrom(m, Meta(s))
    ensures Same(Meta(m), Meta(s), PrecipitationMessage) && Same(Meta(m), Meta(s), DataType)
    ensures Same(m, s, Data) && Same(m, s, PrecipitationDataKey)
  {
    hide Routed, WithMeta, MirrorAll, HasMeta, Meta, MirrorOf, CommandTypeFrom;
    var w := WithMeta(Routed(env, m));
    BeforeMirror(env, m, CommandType);
    BeforeMirror(env, m, Data);
    BeforeMirror(env, m, PrecipitationDataKey);
    MirrorAdds(w, RADAR_FIELDS);
    VilMirrorRead(m, w, s);
  }

  lemma VilMirrorRead(m: Fields, w: Fields, s: Fields)
    requires Same(m, w, CommandType) && Same(m, w, Data) && Same(m, w, PrecipitationDataKey) && Meta(w) == Meta(m)
    requires MirrorOf(w, RADAR_FIELDS, s)
    ensures CommandTypeFrom(m, s) && CommandTypeFrom(m, Meta(s))
    ensures Same(Meta(m), Meta(s), PrecipitationMessage) && Same(Meta(m), Meta(s), DataType)
    ensures Same(m, s, Data) && Same(m, s, PrecipitationDataKey)
  {
    hide HasMeta, Meta;
    assert Filled(w, Meta(w), RADAR_FIELDS, s, CommandType) && Filled(Meta(w), w, RADAR_FIELDS, Meta(s), CommandType);
    assert Filled(w, Meta(w), RADAR_FIELDS, s, Data) && Filled(w, Meta(w), RADAR_FIELDS, s, PrecipitationDataKey);
    assert Filled(Meta(w), w, RADAR_FIELDS, Meta(s), PrecipitationMessage) && Filled(Meta(w), w, RADAR_FIELDS, Meta(s), DataType);
    hide MirrorOf;
  }

  lemma BeforeMirror(env: Env, m: Fields, key: Key)
    requires key != RtAddress && key != SubAddress && key != Metadata
    ensures var w := WithMeta(Routed(env, m));
            HasMeta(w) && Same(m, w, key) && Meta(w) == Meta(m)
  {
    RoutedAlike(env, m);
    hide Routed;
    assert Same(m, Routed(env, m), key);
  }

  lemma VilLabelled(m: Fields, s: Fields, l: Fields)
    requires CommandTypeFrom(m, s) && CommandTypeFrom(m, Meta(s)) && CommandTypeGiven(s, l, "vil_data")
    requires Same(Meta(m), Meta(s), PrecipitationMessage) && Same(Meta(m), Meta(s), DataType)
    requires Same(m, s, Data) && Same(m, s, PrecipitationDataKey)
    requires Changed(s, l, {CommandType, CommandName, DataCount}, {CommandType, CommandName, DataCount, VilMessage, VilDataAvailable})
    requires !Explicit(l) && !IsPrecipitation(m) && IsVil(m) && Set(Meta(l), VilMessage, Flag(true))
    ensures !IsPrecipitation(l) && IsVil(l)
  {
    var own, inner := {CommandType, CommandName, DataCount}, {CommandType, CommandName, DataCount, VilMessage, VilDataAvailable};
    hide IsPrecipitation, IsVil, Explicit, Meta, HasMeta;
    ChangedSame(s, l, own, inner, Data);
    ChangedSame(s, l, own, inner, PrecipitationDataKey);
    MetaSame(s, l, own, inner, PrecipitationMessage);
    MetaSame(s, l, own, inner, DataType);
    hide Changed;
    VilStays(m, l);
  }

  lemma VilSettles(env: Env, m: Fields)
    requires TableHolds(env) && ExtractMessageType(m) == VIL
    ensures ExtractMessageType(Normalize(env, m)) == VIL
    ensures Settled(env, Normalize(env, m))
  {
    Apart();
    var s := MirrorAll(WithMeta(Routed(env, m)), RADAR_FIELDS);
    var l := Labelled(s, "vil_data", "DISPLAY_VIL_DATA", VilMessage, VilDataAvailable);
    assert Checked(l) == Normalize(env, m);
    VilStages(env, m, s, l);
  }

  lemma VilStages(env: Env, m: Fields, s: Fields, l: Fields)
    requires TableHolds(env) && ExtractMessageType(m) == VIL
    requires s == MirrorAll(WithMeta(Routed(env, m)), RADAR_FIELDS)
    requires l == Labelled(s, "vil_data", "DISPLAY_VIL_DATA", VilMessage, VilDataAvailable)
    ensures ExtractMessageType(Checked(l)) == VIL
    ensures Settled(env, Checked(l))
  {
    hide MirrorAll, WithMeta, Routed, Labelled, Checked, Mirrored, HasMeta, Meta, Changed, Settled, CommandTypeGiven, CommandTypeFrom, CountRight, IsPrecipitation, IsVil;
    var own, inner := {CommandType, CommandName, DataCount}, {CommandType, CommandName, DataCount, VilMessage, VilDataAvailable};
    MirroredStage(env, m, RADAR_FIELDS, s);
    LabelledChanges(s, "vil_data", "DISPLAY_VIL_DATA", VilMessage, VilDataAvailable, l);
    ChangedSame(s, l, own, inner, Data);
    ChangedCarries(s, l, own, inner);
    if !Explicit(m) {
      Apart();
      VilMirrored(env, m, s);
      VilLabelled(m, s, l);
    }
    VilEnds(env, m, l, Checked(l));
  }

  lemma VilEnds(env: Env, m: Fields, l: Fields, n: Fields)
    requires TableHolds(env) && ExtractMessageType(m) == VIL && TypeCarried(m, l)
    requires Labels(l, VilMessage, VilDataAvailable) && (HasList(l, Data) ==> CountRight(l))
    requires Mirrored(l, RADAR_FIELDS) && n == Checked(l)
    requires !Explicit(m) ==> !IsPrecipitation(l) && IsVil(l)
    ensures ExtractMessageType(n) == VIL
    ensures Settled(env, n)
  {
    CheckedKeeps(l, n, RADAR_FIELDS, VilMessage, VilDataAvailable);
    hide Mirrored, HasMeta, Meta, IsPrecipitation, IsVil, CountRight, Labels, HasList;
    Apart();
    assert !Explicit(m) ==> n == l;
  }

  lemma PlainSettles(env: Env, m: Fields)
    requires TableHolds(env) && ExtractMessageType(m) != PRECIPITATION && ExtractMessageType(m) != VIL
    ensures ExtractMessageType(Normalize(env, m)) == ExtractMessageType(m)
    ensures Settled(env, Normalize(env, m))
  {
    var t, n := ExtractMessageType(m), Normalize(env, m);
    hide IsPrecipitation, IsVil;
    if t in env.schemas {
      assert Explicit(m);
      var s := MirrorAll(WithMeta(Routed(env, m)), env.schemas[t]);
      assert n == Checked(s);
      hide Normalize, MirrorAll, WithMeta, Routed, Checked, WronglyComplete, HasMeta, Meta;
      MirroredStage(env, m, env.schemas[t], s);
      CheckedKeeps(s, n, env.schemas[t], VilMessage, VilDataAvailable);
      hide Mirrored;
    } else {
      UnlistedSettles(env, m);
    }
  }

  lemma UnlistedSettles(env: Env, m: Fields)
    requires TableHolds(env) && ExtractMessageType(m) !in env.schemas
    ensures ExtractMessageType(Normalize(env, m)) == ExtractMessageType(m)
    ensures Settled(env, Normalize(env, m))
  {
    var r := Routed(env, m);
    var n := Checked(r);
    assert n == Normalize(env, m);
    RoutedAlike(env, m);
    AlikeReads(env, m, r);
    CheckedChanges(r);
    ChangedCarries(r, n, {CommandType}, {CommandType});
    assert Explicit(m) == Explicit(r) by {
      assert Same(m, r, MessageType);
    }
    hide Normalize, Routed, HasMeta, Meta, IsVil, Alike, Changed;
    assert !Explicit(r) ==> n == r;
  }

  /** After one pass, whatever the message was, its type is as before and only addresses and a count can still be missing. */
  lemma PassSettles(env: Env, m: Fields)
    requires TableHolds(env) && WellTyped(m)
    ensures ExtractMessageType(Normalize(env, m)) == ExtractMessageType(m)
    ensures Settled(env, Normalize(env, m))
  {
    hide Normalize, Settled, ExtractMessageType, TableHolds, WellTyped;
    var t := ExtractMessageType(m);
    if t == PRECIPITATION {
      PrecipitationSettles(env, m);
    } else if t == VIL {
      VilSettles(env, m);
    } else {
      PlainSettles(env, m);
    }
  }

  /** A second pass adds to the first at most the two addresses and the data count, a third changes nothing. */
  lemma SecondPassIsFinal(env: Env, m: Fields)
    requires TableHolds(env) && WellTyped(m)
    ensures var once, twice := Normalize(env, m), Normalize(env, Normalize(env, m));
            && Normalize(env, twice) == twice
            && Alike(once, twice)
  {
    hide Normalize, Settled, TableHolds, WellTyped, Completed, Alike;
    var once := Normalize(env, m);
    PassSettles(env, m);
    SettledPass(env, once);
    CompletedSettled(env, once);
    SettledPass(env, Completed(env, once));
    CompletedTwice(env, once);
  }

  /* ---- The passes stay within the messages handled without raising ---- */

  lemma ChangedTyped(a: Fields, b: Fields, own: set<Key>, inner: set<Key>)
    requires Changed(a, b, own, inner) && TextTyped(a) && TextTyped(Meta(a))
    requires MessageType !in own && MessageType !in inner
    requires (CommandType !in own && CommandType !in inner) || (TextOrAbsent(b, CommandType) && TextOrAbsent(Meta(b), CommandType))
    ensures TextTyped(b) && TextTyped(Meta(b))
  {
    assert Same(a, b, MessageType) && Same(Meta(a), Meta(b), MessageType);
    if CommandType !in own {
      assert Same(a, b, CommandType);
    }
    if CommandType !in inner {
      assert Same(Meta(a), Meta(b), CommandType);
    }
  }

  lemma MirrorTyped(env: Env, m: Fields, keys: seq<Key>, s: Fields)
    requires WellTyped(m) && Metadata !in keys && Data !in keys && s == MirrorAll(WithMeta(Routed(env, m)), keys)
    ensures WellTyped(s)
  {
    hide Routed, WithMeta, MirrorAll, HasMeta, Meta, MirrorOf;
    var w := WithMeta(Routed(env, m));
    BeforeMirror(env, m, MessageType);
    BeforeMirror(env, m, CommandType);
    BeforeMirror(env, m, Data);
    MirrorAdds(w, keys);
    hide WellTyped;
    MirrorReadTyped(m, w, keys, s);
  }

  lemma MirrorReadTyped(m: Fields, w: Fields, keys: seq<Key>, s: Fields)
    requires WellTyped(m) && Data !in keys && MirrorOf(w, keys, s)
    requires Same(m, w, MessageType) && Same(m, w, CommandType) && Same(m, w, Data) && Meta(w) == Meta(m)
    ensures WellTyped(s)
  {
    hide HasMeta, Meta, WellTypedItems, Truthy;
    assert Filled(w, Meta(w), keys, s, MessageType) && Filled(Meta(w), w, keys, Meta(s), MessageType);
    assert Filled(w, Meta(w), keys, s, CommandType) && Filled(Meta(w), w, keys, Meta(s), CommandType);
    assert Filled(w, Meta(w), keys, s, Data);
    hide MirrorOf;
  }

  lemma LabelledTyped(s: Fields, text: string, name: string, flag: Key, flag': Key, l: Fields)
    requires Mirrored(s, RADAR_FIELDS) && flag !in RADAR_FIELDS && flag' !in RADAR_FIELDS
    requires l == Labelled(s, text, name, flag, flag') && WellTyped(s)
    ensures WellTyped(l)
  {
    hide Labelled, Mirrored, Changed, HasMeta, Meta, Labels, CountRight, CommandTypeGiven, WellTyped;
    var own, inner := {CommandType, CommandName, DataCount}, {CommandType, CommandName, DataCount, flag, flag'};
    LabelledChanges(s, text, name, flag, flag', l);
    ChangedSame(s, l, own, inner, Data);
    assert flag != MessageType && flag' != MessageType;
    GivenTyped(s, l, text, own, inner);
  }

  lemma GivenTyped(s: Fields, l: Fields, text: string, own: set<Key>, inner: set<Key>)
    requires WellTyped(s) && CommandTypeGiven(s, l, text) && Same(s, l, Data)
    requires Changed(s, l, own, inner) && MessageType !in own && MessageType !in inner
    ensures WellTyped(l)
  {
    hide Changed, HasMeta, Meta, WellTypedItems, Truthy;
    ChangedTyped(s, l, own, inner);
  }

  lemma {:induction false} FixItemsTyped(items: seq<Value>)
    requires WellTypedItems(items)
    ensures WellTypedItems(FixItems(items))
  {
    if items != [] {
      FixItemsTyped(items[..|items| - 1]);
    }
  }

  lemma PointsTyped(l: Fields, p: Fields)
    requires Mirrored(l, RADAR_FIELDS) && p == PointsFixed(l) && WellTyped(l)
    ensures WellTyped(p)
  {
    PointsFixedChanges(l, p);
    ChangedTyped(l, p, {Data, DataCount}, {DataCount, PrecipitationDataNormalized});
    if HasList(l, Data) {
      FixItemsTyped(l[Data].items);
    }
    hide Changed, Mirrored, WellTypedItems, FixItems, AllPoints;
  }

  lemma CheckedTyped(b: Fields)
    requires WellTyped(b)
    ensures WellTyped(Checked(b))
  {
    CheckedChanges(b);
    ChangedSame(b, Checked(b), {CommandType}, {CommandType}, Data);
    hide Changed, WronglyComplete, WellTypedItems;
    ChangedTyped(b, Checked(b), {CommandType}, {CommandType});
  }

  lemma SchemedTyped(env: Env, m: Fields, t: string)
    requires TableHolds(env) && WellTyped(m)
    ensures WellTyped(Schemed(env, Routed(env, m), t))
    ensures t == PRECIPITATION ==> Mirrored(Schemed(env, Routed(env, m), t), RADAR_FIELDS)
  {
    if t in env.schemas {
      var s := MirrorAll(WithMeta(Routed(env, m)), env.schemas[t]);
      MirrorTyped(env, m, env.schemas[t], s);
      MirroredStage(env, m, env.schemas[t], s);
      hide WellTyped, Mirrored, Labelled, Routed, WithMeta, MirrorAll, TypeCarried;
      if t == PRECIPITATION {
        PrecipitationTyped(s);
      } else if t == VIL {
        LabelledTyped(s, "vil_data", "DISPLAY_VIL_DATA", VilMessage, VilDataAvailable, Schemed(env, Routed(env, m), t));
      }
    } else {
      RoutedTyped(env, m);
    }
  }

  lemma PrecipitationTyped(s: Fields)
    requires WellTyped(s) && Mirrored(s, RADAR_FIELDS)
    ensures var l := Labelled(s, "precipitation_data", "DISPLAY_PRECIPITATION_DATA", PrecipitationMessage, PrecipitationDataKey);
            WellTyped(l) && Mirrored(l, RADAR_FIELDS)
  {
    hide WellTyped, Mirrored, Labelled, Changed;
    var l := Labelled(s, "precipitation_data", "DISPLAY_PRECIPITATION_DATA", PrecipitationMessage, PrecipitationDataKey);
    LabelledTyped(s, "precipitation_data", "DISPLAY_PRECIPITATION_DATA", PrecipitationMessage, PrecipitationDataKey, l);
    LabelledChanges(s, "precipitation_data", "DISPLAY_PRECIPITATION_DATA", PrecipitationMessage, PrecipitationDataKey, l);
  }

  lemma RoutedTyped(env: Env, m: Fields)
    requires WellTyped(m)
    ensures WellTyped(Routed(env, m))
  {
    RoutedAlike(env, m);
    var r := Routed(env, m);
    hide Routed, WellTypedItems, Truthy, HasMeta;
    assert Same(m, r, MessageType) && Same(m, r, CommandType) && Same(m, r, Data);
  }

  /** What one pass hands back can be passed in again. */
  lemma NormalizeKeepsTypes(env: Env, m: Fields)
    requires TableHolds(env) && WellTyped(m)
    ensures WellTyped(Normalize(env, m))
  {
    hide WellTyped, Schemed, Routed, Mirrored, PointsFixed, Checked, TableHolds;
    var t := ExtractMessageType(m);
    var l := Schemed(env, Routed(env, m), t);
    SchemedTyped(env, m, t);
    if t == PRECIPITATION {
      PointsTyped(l, PointsFixed(l));
      CheckedTyped(PointsFixed(l));
    } else {
      CheckedTyped(l);
    }
  }

  /** The whole normalisation: a copy is routed, given its schema's fields, its points put in order, and checked. */
  method NormalizeMessageStructure(env: Env, message: Fields) returns (normalized: Fields)
    requires TableHolds(env) && WellTyped(message)
    ensures normalized == Normalize(env, message)
    ensures WellTyped(normalized) && Settled(env, normalized)
  {
    var draft := new Draft(message);
    var messageType := ExtractMessageType(message);
    SchemedTyped(env, message, messageType);
    draft.EnsureRoutingFields(env);
    draft.ApplySchemaNormalization(env, messageType);
    if messageType == PRECIPITATION {
      draft.NormalizePrecipitationData();
    }
    draft.VerifyCriticalFields();
    normalized := draft.message;
    hide Settled, TableHolds, Schemed, Routed, PointsFixed, Checked, WellTyped;
    NormalizeKeepsTypes(env, message);
    PassSettles(env, message);
  }

  /** One pass is not enough: a bare precipitation answer is given its metadata and an empty list by the
      first pass, and only then its subaddress and its count by the second. */
  lemma OnePassIsNotEnough(env: Env, m: Fields)
    requires TableHolds(env) && m == map[MessageType := Str(PRECIPITATION)]
    ensures WellTyped(m)
    ensures Normalize(env, Normalize(env, m)) != Normalize(env, m)
  {
    var n := Normalize(env, m);
    FirstPassOfBare(env, m);
    hide Normalize, Settled, Routed, ExtractMessageType, Alike, WellTyped, TableHolds;
    assert WellTyped(m) by { BareTyped(m); }
    PassSettles(env, m);
    SettledPass(env, n);
    SecondPassCounts(env, n);
  }

  lemma BareTyped(m: Fields)
    requires m == map[MessageType := Str(PRECIPITATION)]
    ensures WellTyped(m)
  {
  }

  lemma SecondPassCounts(env: Env, n: Fields)
    requires HasList(n, Data) && ExtractMessageType(n) == PRECIPITATION
    ensures DataCount in Completed(env, n)
  {
    RoutedAlike(env, n);
    hide Routed, Alike;
    assert Same(n, Routed(env, n), Data);
  }

  lemma FirstPassOfBare(env: Env, m: Fields)
    requires TableHolds(env) && m == map[MessageType := Str(PRECIPITATION)]
    ensures var n := Normalize(env, m);
            DataCount !in n && HasList(n, Data) && ExtractMessageType(n) == PRECIPITATION
  {
    var s := MirrorAll(m[Metadata := Dict(map[])], RADAR_FIELDS);
    var l := Labelled(s, "precipitation_data", "DISPLAY_PRECIPITATION_DATA", PrecipitationMessage, PrecipitationDataKey);
    assert Routed(env, m) == m;
    assert Checked(PointsFixed(l)) == Normalize(env, m);
    hide Normalize, MirrorAll, Routed, TableHolds, Labelled, PointsFixed, Checked;
    BareMirror(m, s);
    BareLabelled(s, l);
  }

  lemma BareLabelled(s: Fields, l: Fields)
    requires HasMeta(s) && MessageType in s && s[MessageType] == Str(PRECIPITATION) && Data !in s && DataCount !in s
    requires l == Labelled(s, "precipitation_data", "DISPLAY_PRECIPITATION_DATA", PrecipitationMessage, PrecipitationDataKey)
    ensures var n := Checked(PointsFixed(l));
            DataCount !in n && HasList(n, Data) && ExtractMessageType(n) == PRECIPITATION
  {
    assert MessageType in l && l[MessageType] == Str(PRECIPITATION) && DataCount !in l && Data !in l;
    hide Labelled;
    assert PointsFixed(l) == l[Data := Lst([])];
    hide WronglyComplete, PointsFixed;
  }

  lemma BareMirror(m: Fields, s: Fields)
    requires m == map[MessageType := Str(PRECIPITATION)] && s == MirrorAll(m[Metadata := Dict(map[])], RADAR_FIELDS)
    ensures HasMeta(s) && MessageType in s && s[MessageType] == Str(PRECIPITATION)
    ensures Data !in s && DataCount !in s
  {
    var w := m[Metadata := Dict(map[])];
    MirrorAdds(w, RADAR_FIELDS);
    assert Filled(w, Meta(w), RADAR_FIELDS, s, MessageType);
    assert Filled(w, Meta(w), RADAR_FIELDS, s, Data) && Filled(w, Meta(w), RADAR_FIELDS, s, DataCount);
  }

  /* ---- Nothing the caller wrote is lost ---- */

  const OWNED_FIELDS: set<Key> := {Metadata, Data, DataCount, CommandType}
  const OWNED_METADATA: set<Key> :=
    {DataCount, CommandType, PrecipitationMessage, PrecipitationDataKey, PrecipitationDataNormalized, VilMessage, VilDataAvailable}

  /** Every field of the first message, and every metadata field, is in the second with its value, but for those the normaliser writes itself. */
  ghost predicate Keeps(a: Fields, b: Fields) {
    && (forall key :: key in a && key !in OWNED_FIELDS ==> key in b && b[key] == a[key])
    && (forall key :: key in Meta(a) && key !in OWNED_METADATA ==> key in Meta(b) && Meta(b)[key] == Meta(a)[key])
  }

  lemma KeepsThrough(a: Fields, b: Fields, c: Fields)
    requires Keeps(a, b) && Keeps(b, c)
    ensures Keeps(a, c)
  {
    hide Meta, OWNED_FIELDS, OWNED_METADATA;
  }

  lemma MirrorKeeps(m: Fields, keys: seq<Key>)
    requires HasMeta(m) && Metadata !in keys
    ensures Keeps(m, MirrorAll(m, keys))
  {
    MirrorAdds(m, keys);
    var s := MirrorAll(m, keys);
    hide MirrorAll, Meta, HasMeta;
    forall key | key in m && key !in OWNED_FIELDS ensures key in s && s[key] == m[key] {
      assert Filled(m, Meta(m), keys, s, key);
    }
    forall key | key in Meta(m) && key !in OWNED_METADATA ensures key in Meta(s) && Meta(s)[key] == Meta(m)[key] {
      assert Filled(Meta(m), m, keys, Meta(s), key);
    }
  }

  lemma DefaultKeeps(m: Fields, key: Key, text: string)
    requires HasMeta(m) && (key == CommandType || key == CommandName)
    requires key == CommandName && key in Meta(m) ==> key in m
    ensures HasMeta(Default(m, key, text)) && Keeps(m, Default(m, key, text))
  {
  }

  lemma CountedKeeps(m: Fields)
    requires HasMeta(m)
    ensures HasMeta(Counted(m)) && Keeps(m, Counted(m))
  {
  }

  lemma FlagKeeps(m: Fields, flag: Key)
    requires HasMeta(m) && flag in OWNED_METADATA
    ensures HasMeta(SetMeta(m, flag, Flag(true))) && Keeps(m, SetMeta(m, flag, Flag(true)))
  {
  }

  lemma LabelledKeeps(m: Fields, text: string, name: string, flag: Key, flag': Key)
    requires Mirrored(m, RADAR_FIELDS) && flag in OWNED_METADATA && flag' in OWNED_METADATA
    ensures Keeps(m, Labelled(m, text, name, flag, flag')) && HasMeta(Labelled(m, text, name, flag, flag'))
  {
    hide Default, Counted, SetMeta, Keeps, HasMeta, OWNED_METADATA;
    var a := Default(m, CommandType, text);
    var b := Default(a, CommandName, name);
    var c := Counted(b);
    var d := SetMeta(c, flag, Flag(true));
    DefaultKeeps(m, CommandType, text);
    DefaultChanges(m, CommandType, text, RADAR_FIELDS);
    DefaultKeeps(a, CommandName, name);
    CountedKeeps(b);
    FlagKeeps(c, flag);
    FlagKeeps(d, flag');
    KeepsThrough(m, a, b);
    KeepsThrough(m, b, c);
    KeepsThrough(m, c, d);
    KeepsThrough(m, d, SetMeta(d, flag', Flag(true)));
  }

  lemma PointsKeep(m: Fields)
    requires HasMeta(m)
    ensures Keeps(m, PointsFixed(m))
  {
    hide FixItems, AllPoints, Truthy;
  }

  lemma SchemedKeeps(env: Env, m: Fields, t: string)
    requires TableHolds(env)
    ensures Keeps(m, Schemed(env, m, t)) && (t in env.schemas ==> HasMeta(Schemed(env, m, t)))
  {
    if t in env.schemas {
      var w := WithMeta(m);
      var s := MirrorAll(w, env.schemas[t]);
      MirrorKeeps(w, env.schemas[t]);
      MirrorSettles(w, env.schemas[t]);
      assert Keeps(m, w);
      KeepsThrough(m, w, s);
      hide Keeps, Labelled, WithMeta, MirrorAll;
      if t == PRECIPITATION {
        LabelledKeeps(s, "precipitation_data", "DISPLAY_PRECIPITATION_DATA", PrecipitationMessage, PrecipitationDataKey);
        KeepsThrough(m, s, Schemed(env, m, t));
      } else if t == VIL {
        LabelledKeeps(s, "vil_data", "DISPLAY_VIL_DATA", VilMessage, VilDataAvailable);
        KeepsThrough(m, s, Schemed(env, m, t));
      }
    }
  }

  lemma RadarListed(env: Env)
    requires TableHolds(env)
    ensures PRECIPITATION in env.schemas
  {
  }

  lemma KeepsSelf(m: Fields)
    ensures Keeps(m, m)
  {
  }

  lemma RoutedKeeps(env: Env, m: Fields)
    ensures Keeps(m, Routed(env, m))
  {
    RoutedAlike(env, m);
    hide Meta, HasMeta, ExtractSubAddress, RtOf;
  }

  lemma CheckedKeepsFields(m: Fields)
    ensures Keeps(m, Checked(m))
  {
    hide WronglyComplete;
  }

  /** Behind the routing fields nothing of the message is lost either. */
  lemma RoutedIsKept(env: Env, m: Fields)
    requires TableHolds(env)
    ensures Keeps(Routed(env, m), Normalize(env, m))
  {
    var t, r := ExtractMessageType(m), Routed(env, m);
    var s := Schemed(env, r, t);
    var p := if t == PRECIPITATION then PointsFixed(s) else s;
    assert Normalize(env, m) == Checked(p);
    hide Keeps, Routed, Schemed, PointsFixed, Checked, TableHolds, ExtractMessageType, Normalize;
    SchemedKeeps(env, r, t);
    if t == PRECIPITATION {
      assert HasMeta(s) by { RadarListed(env); }
      PointsKeep(s);
    } else {
      KeepsSelf(s);
    }
    CheckedKeepsFields(p);
    KeepsThrough(r, s, p);
    KeepsThrough(r, p, Checked(p));
  }

  /** Normalising loses nothing: whatever the caller wrote, outside the few fields the normaliser fills in itself, is kept. */
  lemma NothingLost(env: Env, m: Fields)
    requires TableHolds(env)
    ensures Keeps(m, Normalize(env, m))
  {
    hide Keeps, Routed, Normalize, TableHolds;
    RoutedKeeps(env, m);
    RoutedIsKept(env, m);
    KeepsThrough(m, Routed(env, m), Normalize(env, m));
  }
}
