/** Normalising a message for routing: addresses, mirrored metadata, defaults and point lists are filled in. */
module Normalizer {

  import opened Text
  import opened Wrappers

  /** Dictionary keys; the ones the normaliser knows by name are told apart from the rest. */
  datatype Key =
    | MessageType | CommandType | CommandName | RequestId | DataCount | ScanType | Mode
    | Metadata | Data | Frames | StatusWord | RtAddress | SubAddress | SubaddressOneWord | SourceRtAddress | RadarType
    | PrecipitationMessage | PrecipitationDataKey | PrecipitationDataNormalized | VilMessage | VilData | VilDataAvailable
    | DataType | IsTransferComplete
    | Position | Type | Rate | Intensity | ShowValues | Amount | LayerCount
    | Other(name: string)

  /** What a dictionary may hold; Point is an instance of the radar's point class, Nothing is None. */
  datatype Value =
    | Str(text: string)
    | Num(number: real)
    | Flag(flag: bool)
    | Nothing
    | Lst(items: seq<Value>)
    | Tup(elements: seq<Value>)
    | Dict(entries: map<Key, Value>)
    | Point

  type Fields = map<Key, Value>

  /** The schema table's metadata fields by message type, and how five characters read as a binary number. */
  datatype Env = Env(schemas: map<string, seq<Key>>, parse: string -> Option<int>)

  const PRECIPITATION := "weather_radarPrecipitationResponse"
  const VIL := "weather_radarVILResponse"
  const UNKNOWN := "unknown"
  const RADAR_FIELDS := [MessageType, CommandType, CommandName, RequestId, DataCount, ScanType, Mode]

  /** What holds of the repository's table: its two radar answers list these seven fields, there is no schema
      for an unknown message, and no schema lists the metadata, the data or a routing address. */
  ghost predicate TableHolds(env: Env) {
    && PRECIPITATION in env.schemas && env.schemas[PRECIPITATION] == RADAR_FIELDS
    && VIL in env.schemas && env.schemas[VIL] == RADAR_FIELDS
    && UNKNOWN !in env.schemas
    && forall t | t in env.schemas ::
         && Metadata !in env.schemas[t] && Data !in env.schemas[t]
         && RtAddress !in env.schemas[t] && SubAddress !in env.schemas[t]
  }

  /* ---- Reading ---- */

  predicate Truthy(v: Value) {
    match v
    case Str(s) => s != ""
    case Num(x) => x != 0.0
    case Flag(b) => b
    case Nothing => false
    case Lst(items) => items != []
    case Tup(elements) => elements != []
    case Dict(entries) => entries != map[]
    case Point => true
  }

  predicate StandsAt(s: string, word: string, i: nat) {
    i + |word| <= |s| && s[i..i + |word|] == word
  }

  predicate Contains(s: string, word: string) {
    exists i: nat :: i <= |s| && StandsAt(s, word, i)
  }

  /** `key in d and word in d[key].lower()`. */
  predicate Says(d: Fields, key: Key, word: string) {
    key in d && d[key].Str? && Contains(Lower(d[key].text), word)
  }

  predicate Is(d: Fields, key: Key, text: string) {
    key in d && d[key] == Str(text)
  }

  predicate On(d: Fields, key: Key) {
    key in d && Truthy(d[key])
  }

  predicate HasList(d: Fields, key: Key) {
    key in d && d[key].Lst?
  }

  predicate HasMeta(m: Fields) {
    Metadata in m && m[Metadata].Dict?
  }

  /** The metadata dictionary, empty when there is none. */
  function Meta(m: Fields): (d: Fields) {
    if HasMeta(m) then m[Metadata].entries else map[]
  }

  /** A list of dictionaries, as far as its first five show, whose first has the three keys. */
  predicate SampleHas(m: Fields, a: Key, b: Key, c: Key) {
    && HasList(m, Data)
    && var items := m[Data].items;
       && items != []
       && (forall i :: 0 <= i < |items| && i < 5 ==> items[i].Dict?)
       && a in items[0].entries && b in items[0].entries && c in items[0].entries
  }

  predicate IsPrecipitation(m: Fields) {
    || Says(m, MessageType, "precipitation")
    || Says(m, CommandType, "precipitation")
    || On(Meta(m), PrecipitationMessage)
    || Says(Meta(m), MessageType, "precipitation")
    || Says(Meta(m), CommandType, "precipitation")
    || Is(Meta(m), DataType, "precipitation")
    || SampleHas(m, Position, Type, Rate)
    || HasList(m, PrecipitationDataKey)
  }

  predicate IsVil(m: Fields) {
    && !Is(m, CommandType, "mode_change")
    && !Is(Meta(m), CommandType, "mode_change")
    && (|| Says(m, MessageType, "vil")
        || Says(m, CommandType, "vil")
        || On(Meta(m), VilMessage)
        || Says(Meta(m), MessageType, "vil")
        || Says(Meta(m), CommandType, "vil")
        || Is(Meta(m), DataType, "vil")
        || SampleHas(m, Position, Amount, LayerCount)
        || HasList(m, VilData))
  }

  function TextOf(v: Value): (s: string) {
    if v.Str? then v.text else ""
  }

  function ExtractMessageType(m: Fields): (t: string) {
    if MessageType in m then TextOf(m[MessageType])
    else if MessageType in Meta(m) then TextOf(Meta(m)[MessageType])
    else if IsPrecipitation(m) then PRECIPITATION
    else if IsVil(m) then VIL
    else UNKNOWN
  }

  /** The address a status word starting with 100 carries in its bits 3 to 7. */
  function AddressIn(env: Env, v: Value): (a: Value) {
    if v.Str? && |v.text| >= 8 && v.text[..3] == "100" then
      match env.parse(v.text[3..8])
      case Some(n) => Num(n as real)
      case None => Nothing
    else Nothing
  }

  function RtFromFrames(env: Env, m: Fields): (a: Value) {
    var first := if HasList(m, Frames) && m[Frames].items != [] then AddressIn(env, m[Frames].items[0]) else Nothing;
    if first != Nothing then first
    else
      var second := if StatusWord in m then AddressIn(env, m[StatusWord]) else Nothing;
      if second != Nothing then second
      else if StatusWord in m && m[StatusWord].Dict? && RtAddress in m[StatusWord].entries then m[StatusWord].entries[RtAddress]
      else Nothing
  }

  /** Precipitation or integrated liquid data from the weather radar. */
  predicate IsRadar(m: Fields) {
    IsPrecipitation(m) || IsVil(m)
  }

  /** The address a metadata dictionary offers, more of it for a radar message. */
  function RtIn(d: Fields, radar: bool): (a: Value) {
    if RtAddress in d then d[RtAddress]
    else if radar && SourceRtAddress in d then d[SourceRtAddress]
    else if radar && Is(d, RadarType, "weather_radar") then Num(9.0)
    else if StatusWord in d && d[StatusWord].Dict? && RtAddress in d[StatusWord].entries then d[StatusWord].entries[RtAddress]
    else Nothing
  }

  function RtFromMetadata(m: Fields): (a: Value) {
    RtIn(Meta(m), IsRadar(m))
  }

  function SubIn(d: Fields, radar: bool): (a: Value) {
    if SubAddress in d then d[SubAddress]
    else if SubaddressOneWord in d then d[SubaddressOneWord]
    else if radar then Num(1.0)
    else Nothing
  }

  function ExtractSubAddress(m: Fields): (a: Value) {
    if HasMeta(m) then SubIn(Meta(m), IsRadar(m)) else Nothing
  }

  /* ---- The three phases and the final check, as functions of the dictionary ---- */

  function SetIf(m: Fields, key: Key, v: Value): (m': Fields) {
    if key in m || v == Nothing then m else m[key := v]
  }

  function RtOf(env: Env, m: Fields): (a: Value) {
    if RtFromFrames(env, m) != Nothing then RtFromFrames(env, m) else RtFromMetadata(m)
  }

  function Routed(env: Env, m: Fields): (m': Fields) {
    var m1 := SetIf(m, RtAddress, RtOf(env, m));
    SetIf(m1, SubAddress, ExtractSubAddress(m1))
  }

  function SetMeta(m: Fields, key: Key, v: Value): (m': Fields) {
    m[Metadata := Dict(Meta(m)[key := v])]
  }

  /** The key is set at top level and in the metadata. */
  function SetBoth(m: Fields, key: Key, v: Value): (m': Fields) {
    SetMeta(m[key := v], key, v)
  }

  function WithMeta(m: Fields): (m': Fields)
    ensures HasMeta(m') && Meta(m') == Meta(m)
  {
    if HasMeta(m) then m else m[Metadata := Dict(map[])]
  }

  function Mirror(m: Fields, key: Key): (m': Fields) {
    if key in m then
      if key !in Meta(m) then SetMeta(m, key, m[key]) else m
    else if key in Meta(m) then m[key := Meta(m)[key]]
    else m
  }

  function MirrorAll(m: Fields, keys: seq<Key>): (m': Fields) {
    if keys == [] then m else Mirror(MirrorAll(m, keys[..|keys| - 1]), keys[|keys| - 1])
  }

  function Default(m: Fields, key: Key, text: string): (m': Fields) {
    if key in m then m else SetBoth(m, key, Str(text))
  }

  function Counted(m: Fields): (m': Fields) {
    if HasList(m, Data) then SetBoth(m, DataCount, Num(|m[Data].items| as real)) else m
  }

  function Labelled(m: Fields, commandType: string, commandName: string, flag: Key, flag': Key): (m': Fields) {
    var counted := Counted(Default(Default(m, CommandType, commandType), CommandName, commandName));
    SetMeta(SetMeta(counted, flag, Flag(true)), flag', Flag(true))
  }

  function Schemed(env: Env, m: Fields, t: string): (m': Fields) {
    if t !in env.schemas then m
    else
      var mirrored := MirrorAll(WithMeta(m), env.schemas[t]);
      if t == PRECIPITATION then
        Labelled(mirrored, "precipitation_data", "DISPLAY_PRECIPITATION_DATA", PrecipitationMessage, PrecipitationDataKey)
      else if t == VIL then Labelled(mirrored, "vil_data", "DISPLAY_VIL_DATA", VilMessage, VilDataAvailable)
      else mirrored
  }

  /** `float(v)` of a number. */
  function ToFloat(v: Value): (x: Value) {
    if v.Flag? then Num(if v.flag then 1.0 else 0.0) else v
  }

  predicate Usable(item: Value) {
    item.Dict? && Position in item.entries && Type in item.entries
  }

  function Get(d: Fields, key: Key, otherwise: Value): (v: Value) {
    if key in d then d[key] else otherwise
  }

  function FixItem(item: Value): (fixed: Value)
    requires Usable(item)
    ensures Usable(fixed)
  {
    var d := item.entries;
    Dict(map[
      Position := if d[Position].Lst? then Tup(d[Position].items) else d[Position],
      Type := d[Type],
      Rate := ToFloat(Get(d, Rate, Num(0.0))),
      Intensity := ToFloat(Get(d, Intensity, Num(0.0))),
      ShowValues := Flag(Truthy(Get(d, ShowValues, Flag(false))))])
  }

  function FixItems(items: seq<Value>): (fixed: seq<Value>) {
    if items == [] then []
    else
      var n := |items| - 1;
      if Usable(items[n]) then FixItems(items[..n]) + [FixItem(items[n])] else FixItems(items[..n])
  }

  predicate AllPoints(items: seq<Value>) {
    forall i :: 0 <= i < |items| ==> items[i].Point?
  }

  function PointsFixed(m: Fields): (m': Fields) {
    if Data !in m || !Truthy(m[Data]) then m[Data := Lst([])]
    else
      var items := if m[Data].Lst? then m[Data].items else [];
      var fixed := FixItems(items);
      if AllPoints(items) || fixed == [] then m
      else SetMeta(Counted(m[Data := Lst(fixed)]), PrecipitationDataNormalized, Flag(true))
  }

  predicate WronglyComplete(m: Fields) {
    On(m, IsTransferComplete) && IsPrecipitation(m) && Is(m, CommandType, "transfer_complete")
  }

  function Checked(m: Fields): (m': Fields) {
    if !WronglyComplete(m) then m
    else
      var m1 := m[CommandType := Str("precipitation_data")];
      if HasMeta(m1) then SetMeta(m1, CommandType, Str("precipitation_data")) else m1
  }

  function Normalize(env: Env, m: Fields): (m': Fields) {
    var t := ExtractMessageType(m);
    var schemed := Schemed(env, Routed(env, m), t);
    Checked(if t == PRECIPITATION then PointsFixed(schemed) else schemed)
  }

  /* ---- The messages the normaliser handles without raising ---- */

  predicate TextOrAbsent(d: Fields, key: Key) {
    key in d ==> d[key].Str?
  }

  predicate NumberOrAbsent(d: Fields, key: Key) {
    key in d ==> d[key].Num? || d[key].Flag?
  }

  predicate WellTypedItem(item: Value) {
    Usable(item) ==> NumberOrAbsent(item.entries, Rate) && NumberOrAbsent(item.entries, Intensity)
  }

  predicate TextTyped(d: Fields) {
    TextOrAbsent(d, MessageType) && TextOrAbsent(d, CommandType)
  }

  predicate WellTypedItems(items: seq<Value>) {
    forall i :: 0 <= i < |items| ==> WellTypedItem(items[i])
  }

  predicate DataTyped(m: Fields) {
    Data in m ==> if m[Data].Lst? then WellTypedItems(m[Data].items) else !Truthy(m[Data])
  }

  /** Type fields are strings, data is a list, absent or empty, and the numbers of its points are numbers. */
  predicate WellTyped(m: Fields) {
    TextTyped(m) && TextTyped(Meta(m)) && DataTyped(m)
  }

  /* ---- The program: a copy of the dictionary, changed in place phase by phase ---- */

  class Draft {
    var message: Fields

    constructor (original: Fields)
      ensures message == original
    {
      message := original;
    }

    method EnsureRoutingFields(env: Env)
      modifies this
      ensures message == Routed(env, old(message))
    {
      if RtAddress !in message {
        var address := RtFromFrames(env, message);
        if address != Nothing {
          message := message[RtAddress := address];
        } else {
          address := RtFromMetadata(message);
          if address != Nothing {
            message := message[RtAddress := address];
          }
        }
      }
      if SubAddress !in message {
        var address := ExtractSubAddress(message);
        if address != Nothing {
          message := message[SubAddress := address];
        }
      }
    }

    method MirrorFields(keys: seq<Key>)
      modifies this
      ensures message == MirrorAll(old(message), keys)
    {
      var i := 0;
      while i < |keys|
        invariant 0 <= i <= |keys|
        invariant message == MirrorAll(old(message), keys[..i])
      {
        var key := keys[i];
        if key in message {
          if key !in Meta(message) {
            message := SetMeta(message, key, message[key]);
          }
        } else if key in Meta(message) {
          message := message[key := Meta(message)[key]];
        }
        assert keys[..i + 1][..i] == keys[..i];
        i := i + 1;
      }
      assert keys[..i] == keys;
    }

    method SetDefault(key: Key, text: string)
      modifies this
      ensures message == Default(old(message), key, text)
    {
      if key !in message {
        message := SetBoth(message, key, Str(text));
      }
    }

    method CountData()
      modifies this
      ensures message == Counted(old(message))
    {
      if Data in message && message[Data].Lst? {
        message := SetBoth(message, DataCount, Num(|message[Data].items| as real));
      }
    }

    method SetDefaults(commandType: string, commandName: string, flag: Key, flag': Key)
      modifies this
      ensures message == Labelled(old(message), commandType, commandName, flag, flag')
    {
      SetDefault(CommandType, commandType);
      SetDefault(CommandName, commandName);
      CountData();
      hide Default, Counted, SetMeta;
      message := SetMeta(message, flag, Flag(true));
      message := SetMeta(message, flag', Flag(true));
    }

    method ApplySchemaNormalization(env: Env, messageType: string)
      modifies this
      ensures message == Schemed(env, old(message), messageType)
    {
      if messageType !in env.schemas {
        return;
      }
      if Metadata !in message || !message[Metadata].Dict? {
        message := message[Metadata := Dict(map[])];
      }
      MirrorFields(env.schemas[messageType]);
      if messageType == PRECIPITATION {
        SetDefaults("precipitation_data", "DISPLAY_PRECIPITATION_DATA", PrecipitationMessage, PrecipitationDataKey);
      } else if messageType == VIL {
        SetDefaults("vil_data", "DISPLAY_VIL_DATA", VilMessage, VilDataAvailable);
      }
    }

    method NormalizePrecipitationData()
      requires Data in message ==> message[Data].Lst? || !Truthy(message[Data])
      modifies this
      ensures message == PointsFixed(old(message))
    {
      if Data !in message || !Truthy(message[Data]) {
        message := message[Data := Lst([])];
        return;
      }
      var items := message[Data].items;
      if AllPoints(items) {
        return;
      }
      var fixed: seq<Value> := [];
      var i := 0;
      while i < |items|
        invariant 0 <= i <= |items|
        invariant fixed == FixItems(items[..i])
      {
        if Usable(items[i]) {
          fixed := fixed + [FixItem(items[i])];
        }
        assert items[..i + 1][..i] == items[..i];
        i := i + 1;
      }
      assert items[..i] == items;
      if fixed != [] {
        message := message[Data := Lst(fixed)];
        message := SetBoth(message, DataCount, Num(|fixed| as real));
        message := SetMeta(message, PrecipitationDataNormalized, Flag(true));
      }
    }

    method VerifyCriticalFields()
      modifies this
      ensures message == Checked(old(message))
    {
      var precipitation := IsPrecipitation(message);
      if On(message, IsTransferComplete) && precipitation {
        if Is(message, CommandType, "transfer_complete") {
          message := message[CommandType := Str("precipitation_data")];
          if HasMeta(message) {
            message := SetMeta(message, CommandType, Str("precipitation_data"));
          }
        }
      }
    }
  }
}
