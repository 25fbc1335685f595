/** Metadata words: the self-describing header in front of a payload, and the packing of precipitation
    points into pairs of words. */
module MetadataCodec {
  import opened Binary
  import opened PythonInts
  import opened Text
  import opened Wrappers

  const VERSION := 1

  // ---------------------------------------------------------------- the metadata block

  /** The request id as it is encoded: a long id with dashes as its first and last four characters, any
      other as the bytes of its first eight. */
  datatype RequestId = Uuid(prefix: seq<nat>, suffix: seq<nat>) | Short(bytes: seq<nat>)

  /** What the encoder puts into the block. `nameBytes` is the padded command name as bytes. */
  datatype Metadata = Metadata(
    typeWord: string,
    transferInfo: Option<string>,
    nameBytes: Option<seq<nat>>,
    requestId: Option<RequestId>,
    extendedFlags: Option<string>,
    points: seq<string>,
    checksum: string,
    flags: nat)

  function Pair(high: nat, low: nat): (w: string)
    ensures |w| >= 1 && AllBits(w)
  {
    Format(high * 256 + low, 16)
  }

  /** One six-byte chunk of the command name: a word per pair of bytes it has. */
  function ChunkWords(chunk: seq<nat>): (words: seq<string>)
    ensures |words| <= 3
  {
    if |chunk| < 2 then []
    else
      [Pair(chunk[0], chunk[1])]
      + (if |chunk| >= 4 then [Pair(chunk[2], chunk[3])] else [])
      + (if |chunk| == 6 then [Pair(chunk[4], chunk[5])] else [])
  }

  /** `bytes[low:high]` with Python's clipping. */
  function Slice(bytes: seq<nat>, low: nat, high: nat): (part: seq<nat>)
    requires low <= high
  {
    if low >= |bytes| then [] else if high > |bytes| then bytes[low..] else bytes[low..high]
  }

  function NameWords(bytes: seq<nat>): (words: seq<string>)
    ensures |words| <= 6
  {
    ChunkWords(Slice(bytes, 0, 6)) + ChunkWords(Slice(bytes, 6, 12))
  }

  /** The words of `for i in range(0, 8, 2)` from i on. */
  function ShortIdWords(bytes: seq<nat>, i: nat): (words: seq<string>)
    requires i <= 8 && i % 2 == 0
    ensures |words| <= (8 - i) / 2
    decreases 8 - i
  {
    if i == 8 then []
    else (if i + 1 < |bytes| then [Pair(bytes[i], bytes[i + 1])] else []) + ShortIdWords(bytes, i + 2)
  }

  function FourChars(chars: seq<nat>): (words: seq<string>)
    ensures |words| <= 2
  {
    if |chars| == 4 then [Pair(chars[0], chars[1]), Pair(chars[2], chars[3])] else []
  }

  function IdWords(id: RequestId): (words: seq<string>)
    ensures |words| <= 4
  {
    match id
    case Uuid(prefix, suffix) => FourChars(prefix) + FourChars(suffix)
    case Short(bytes) => ShortIdWords(bytes, 0)
  }

  /** The words after the header, the checksum last. */
  function Body(m: Metadata): (words: seq<string>)
    ensures |words| <= 14 + |m.points|
  {
    [m.typeWord]
    + (if m.extendedFlags.Some? then [m.extendedFlags.value] else [])
    + (if m.transferInfo.Some? then [m.transferInfo.value] else [])
    + (if m.nameBytes.Some? then NameWords(m.nameBytes.value) else [])
    + (if m.requestId.Some? then IdWords(m.requestId.value) else [])
    + m.points
    + [m.checksum]
  }

  /** The two bytes of every word of binary digits. */
  function BytesOf(words: seq<string>): (bytes: seq<nat>)
  {
    if words == [] then [] else HighLow(words[0]) + BytesOf(words[1..])
  }

  function HighLow(word: string): (bytes: seq<nat>)
  {
    if AllBits(word) then [Parse(word) / 256, Parse(word) % 256] else []
  }

  /** A sequence without its last byte if that has no partner. */
  function Paired(bytes: seq<nat>): (even: seq<nat>) {
    if |bytes| % 2 == 0 then bytes else bytes[..|bytes| - 1]
  }

  predicate AreBytes(bytes: seq<nat>) {
    forall i :: 0 <= i < |bytes| ==> bytes[i] < 256
  }

  lemma PairBytes(high: nat, low: nat)
    requires high < 256 && low < 256
    ensures HighLow(Pair(high, low)) == [high, low]
  {
    ParseFormat(high * 256 + low, 16);
    hide Parse, Format, AllBits;
    var n := high * 256 + low;
    assert n / 256 == high && n % 256 == low;
    assert AllBits(Pair(high, low));
  }

  lemma {:induction false} BytesOfBoth(a: seq<string>, b: seq<string>)
    ensures BytesOf(a + b) == BytesOf(a) + BytesOf(b)
  {
    hide HighLow;
    if a == [] {
      assert a + b == b;
    } else {
      assert (a + b)[1..] == a[1..] + b;
      BytesOfBoth(a[1..], b);
    }
  }

  lemma WordBytes(high: nat, low: nat, rest: seq<string>)
    requires high < 256 && low < 256
    ensures BytesOf([Pair(high, low)] + rest) == [high, low] + BytesOf(rest)
  {
    PairBytes(high, low);
    hide HighLow, Pair;
    assert ([Pair(high, low)] + rest)[1..] == rest;
  }

  lemma ChunkBytes(chunk: seq<nat>)
    requires |chunk| <= 6 && AreBytes(chunk)
    ensures BytesOf(ChunkWords(chunk)) == Paired(chunk)
  {
    hide Pair, BytesOf;
    NoBytes();
    if |chunk| >= 2 {
      var c, d, e := chunk[..2], chunk[2..], if |chunk| >= 4 then chunk[4..] else [];
      var third := if |e| == 2 then [Pair(e[0], e[1])] else [];
      var second := if |d| >= 2 then [Pair(d[0], d[1])] + third else [];
      assert ChunkWords(chunk) == [Pair(c[0], c[1])] + second;
      hide ChunkWords;
      WordBytes(c[0], c[1], second);
      if |d| >= 2 {
        WordBytes(d[0], d[1], third);
      }
      if |e| == 2 {
        WordBytes(e[0], e[1], []);
        assert third + [] == third;
      }
    }
  }

  lemma NoBytes()
    ensures BytesOf([]) == []
  {
  }

  /** The words of a command name hold the bytes of its two chunks of six, each without a last odd one. */
  lemma NameBytesCarried(bytes: seq<nat>)
    requires AreBytes(bytes)
    ensures BytesOf(NameWords(bytes)) == Paired(Slice(bytes, 0, 6)) + Paired(Slice(bytes, 6, 12))
  {
    hide Pair, ChunkWords, Paired, BytesOf;
    ChunkBytes(Slice(bytes, 0, 6));
    ChunkBytes(Slice(bytes, 6, 12));
    BytesOfBoth(ChunkWords(Slice(bytes, 0, 6)), ChunkWords(Slice(bytes, 6, 12)));
  }

  lemma SliceStep(bytes: seq<nat>, i: nat)
    requires i + 2 <= 8
    ensures i + 1 < |bytes| ==> Paired(Slice(bytes, i, 8)) == [bytes[i], bytes[i + 1]] + Paired(Slice(bytes, i + 2, 8))
    ensures i + 1 >= |bytes| ==> Paired(Slice(bytes, i, 8)) == [] == Paired(Slice(bytes, i + 2, 8))
  {
    if i + 1 < |bytes| {
      assert Slice(bytes, i, 8) == [bytes[i], bytes[i + 1]] + Slice(bytes, i + 2, 8);
    }
  }

  /** The words of a short request id hold its first eight bytes, without a last odd one. */
  lemma {:induction false} ShortIdBytesCarried(bytes: seq<nat>, i: nat)
    requires AreBytes(bytes) && i <= 8 && i % 2 == 0
    ensures BytesOf(ShortIdWords(bytes, i)) == Paired(Slice(bytes, i, 8))
    decreases 8 - i
  {
    hide Pair, BytesOf, Paired;
    if i < 8 {
      SliceStep(bytes, i);
      hide Slice;
      ShortIdBytesCarried(bytes, i + 2);
      var rest := ShortIdWords(bytes, i + 2);
      if i + 1 < |bytes| {
        WordBytes(bytes[i], bytes[i + 1], rest);
      } else {
        assert [] + rest == rest;
      }
    } else {
      NoBytes();
      NothingBeyond(bytes);
    }
  }

  /** The words of a long request id hold its first and its last four characters. */
  lemma UuidBytesCarried(prefix: seq<nat>, suffix: seq<nat>)
    requires |prefix| == |suffix| == 4 && AreBytes(prefix) && AreBytes(suffix)
    ensures BytesOf(IdWords(Uuid(prefix, suffix))) == prefix + suffix
  {
    hide BytesOf, Pair;
    NoBytes();
    assert FourChars(suffix) == [Pair(suffix[0], suffix[1])] + ([Pair(suffix[2], suffix[3])] + []);
    assert IdWords(Uuid(prefix, suffix)) == [Pair(prefix[0], prefix[1])] + ([Pair(prefix[2], prefix[3])] + FourChars(suffix));
    WordBytes(prefix[0], prefix[1], [Pair(prefix[2], prefix[3])] + FourChars(suffix));
    WordBytes(prefix[2], prefix[3], FourChars(suffix));
    WordBytes(suffix[0], suffix[1], [Pair(suffix[2], suffix[3])] + []);
    WordBytes(suffix[2], suffix[3], []);
  }

  lemma NothingBeyond(bytes: seq<nat>)
    ensures Paired(Slice(bytes, 8, 8)) == []
  {
  }

  /** Version, number of words after the header, field flags. */
  function HeaderWord(count: nat, flags: nat): (w: int)
  {
    Or(Or(Shl(VERSION, 12), Shl(count, 8)), And(flags, 0xFF))
  }

  lemma {:induction false} OrKeepsNat(a: int, b: int)
    requires a >= 0 && b >= 0
    ensures Or(a, b) >= 0
  {
    forall i: nat | i >= a + b ensures !Bit(Or(a, b), i) {
      BitOr(a, b, i);
      Beyond(a, a + b, i);
      Beyond(b, a + b, i);
    }
    HighBitsBound(Or(a, b), a + b);
  }

  lemma {:induction false} Beyond(n: nat, k: nat, i: nat)
    requires n <= k <= i
    ensures !Bit(n, i)
    decreases i
  {
    if n == 0 {
      BitConst(i);
    } else {
      Beyond(n / 2, if n / 2 <= k - 1 then k - 1 else k, i - 1);
    }
  }

  lemma Powers()
    ensures Pow2(4) == 16 && Pow2(6) == 64 && Pow2(8) == 256 && Pow2(12) == 4096 && Pow2(16) == 65536
  {
    assert Pow2(1) == 2 && Pow2(2) == 4 && Pow2(3) == 8 && Pow2(4) == 16 && Pow2(5) == 32 && Pow2(6) == 64
        && Pow2(7) == 128 && Pow2(8) == 256 && Pow2(9) == 512 && Pow2(10) == 1024 && Pow2(11) == 2048 && Pow2(12) == 4096;
    Pow2Sum(4, 12);
  }

  lemma HeaderIsNat(count: nat, flags: nat)
    ensures HeaderWord(count, flags) >= 0
  {
    Powers();
    AndIsRemainder(flags, 8);
    OrKeepsNat(Shl(VERSION, 12), Shl(count, 8));
    OrKeepsNat(Or(Shl(VERSION, 12), Shl(count, 8)), And(flags, 0xFF));
  }

  function EncodeMetadata(m: Metadata): (words: seq<string>)
    ensures 3 <= |words| <= 15 + |m.points|
  {
    var body := Body(m);
    assert HeaderWord(|body|, m.flags) >= 0 by { HeaderIsNat(|body|, m.flags); }
    [Format(HeaderWord(|body|, m.flags), 16)] + body
  }

  /** `extract_metadata_words`; None when the first word is not binary and the reader raises. */
  function ExtractMetadataWords(words: seq<string>): (r: Option<(seq<string>, seq<string>)>)
    ensures r.Some? ==> r.value.0 + r.value.1 == words
  {
    if words == [] then Some(([], words))
    else
      var word := ReadWord(words[0]);
      if word.None? then None
      else if And(Shr(word.value, 12), 0x0F) != VERSION then Some(([], words))
      else
        var count := And(Shr(word.value, 8), 0x0F);
        assert count >= 0 by { Powers(); AndIsRemainder(Shr(word.value, 8), 4); }
        var total := if 1 + count <= |words| then 1 + count else |words|;
        Some((words[..total], words[total..]))
  }

  lemma HeaderBit(count: nat, flags: nat, i: nat)
    requires i >= 8
    ensures Bit(HeaderWord(count, flags), i) <==> i == 12 || Bit(count, i - 8)
  {
    Powers();
    AndIsRemainder(flags, 8);
    var low := And(flags, 0xFF);
    BitOr(Or(Shl(VERSION, 12), Shl(count, 8)), low, i);
    BitOr(Shl(VERSION, 12), Shl(count, 8), i);
    BitPow2(12, i);
    BitShl(count, 8, i);
    NoHighBits(low, 8, i);
  }

  lemma HeaderCount(count: nat, flags: nat)
    ensures And(Shr(HeaderWord(count, flags), 8), 0x0F) == count % 16
  {
    Powers();
    var w := HeaderWord(count, flags);
    AndIsRemainder(count, 4);
    forall i: nat ensures Bit(And(Shr(w, 8), 0x0F), i) == Bit(And(count, 0x0F), i) {
      BitAnd(Shr(w, 8), 0x0F, i);
      BitAnd(count, 0x0F, i);
      BitShr(w, 8, i);
      BitLowMask(4, i);
      HeaderBit(count, flags, i + 8);
    }
    SameBits(And(Shr(w, 8), 0x0F), And(count, 0x0F));
  }

  lemma HeaderVersion(count: nat, flags: nat)
    requires count < 16
    ensures And(Shr(HeaderWord(count, flags), 12), 0x0F) == VERSION
  {
    Powers();
    var w := HeaderWord(count, flags);
    forall i: nat ensures Bit(And(Shr(w, 12), 0x0F), i) == Bit(1, i) {
      BitAnd(Shr(w, 12), 0x0F, i);
      BitShr(w, 12, i);
      BitLowMask(4, i);
      HeaderBit(count, flags, i + 12);
      NoHighBits(count, 4, i + 4);
      BitPow2(0, i);
    }
    SameBits(And(Shr(w, 12), 0x0F), 1);
  }

  /** Self-delimiting: in front of any payload, the reader cuts the block off exactly where the encoder
      ended it, if and only if the block has at most 16 words. */
  lemma SelfDelimitingIff(m: Metadata, payload: seq<string>)
    ensures ExtractMetadataWords(EncodeMetadata(m) + payload) == Some((EncodeMetadata(m), payload))
       <==> |EncodeMetadata(m)| <= 16
  {
    hide And, Or, Shl, Shr, HeaderWord, Format, Parse, Body;
    var enc := EncodeMetadata(m);
    var count := |enc| - 1;
    var w := HeaderWord(count, m.flags);
    HeaderIsNat(count, m.flags);
    ParseFormat(w, 16);
    HeaderCount(count, m.flags);
    assert (enc + payload)[0] == enc[0];
    if |enc| <= 16 {
      HeaderVersion(count, m.flags);
      assert (enc + payload)[..|enc|] == enc && (enc + payload)[|enc|..] == payload;
    }
  }

  /** Without point payloads the block always has at most 15 words, so it is always self-delimiting. */
  lemma PlainBlocksDelimit(m: Metadata, payload: seq<string>)
    requires m.points == []
    ensures |EncodeMetadata(m)| <= 15
    ensures ExtractMetadataWords(EncodeMetadata(m) + payload) == Some((EncodeMetadata(m), payload))
  {
    SelfDelimitingIff(m, payload);
  }

  // ---------------------------------------------------------------- precipitation points

  datatype Point = Point(x: real, y: real, kind: string, rate: real, intensity: real)

  /** `int(x)`: towards zero. */
  function Truncate(x: real): (n: int)
  {
    if x >= 0.0 then x.Floor else -((-x).Floor)
  }

  function Min(a: int, b: int): (m: int) {
    if a < b then a else b
  }

  /** The code of a point's type, which is looked up in lower case; rain when unknown. */
  function KindCode(kind: string): (code: nat)
    ensures code < 4
  {
    var name := Lower(kind);
    if name == "snow" then 1 else if name == "sleet" then 2 else if name == "hail" then 3 else 0
  }

  function KindOf(code: int): (kind: string)
  {
    if code == 1 then "snow" else if code == 2 then "sleet" else if code == 3 then "hail" else "rain"
  }

  function PositionWord(p: Point): (w: int)
  {
    Or(Shl(And(Truncate(p.x * 10.0), 0xFF), 8), And(Truncate(p.y * 10.0), 0xFF))
  }

  function ValueWord(p: Point): (w: int)
  {
    Or(Or(Shl(KindCode(p.kind), 12), Shl(Min(63, Truncate(p.rate / 2.0)), 6)), Min(63, Truncate(p.intensity * 63.0)))
  }

  function DecodePoint(position: int, values: int): (p: Point)
  {
    Point(And(Shr(position, 8), 0xFF) as real / 10.0,
          And(position, 0xFF) as real / 10.0,
          KindOf(And(Shr(values, 12), 0xF)),
          (And(Shr(values, 6), 0x3F) * 2) as real,
          And(values, 0x3F) as real / 63.0)
  }

  /** The coordinates, rate and intensity the packing has room for. */
  predicate Representable(p: Point) {
    0.0 <= p.x < 25.6 && 0.0 <= p.y < 25.6 && 0.0 <= p.rate < 128.0 && 0.0 <= p.intensity <= 1.0
  }

  /** The decoded point q is p with each number rounded down to its step. */
  predicate RoundedDown(p: Point, q: Point) {
    && 0.0 <= p.x - q.x < 0.1 && 0.0 <= p.y - q.y < 0.1
    && 0.0 <= p.rate - q.rate < 2.0
    && 0.0 <= p.intensity - q.intensity < 1.0 / 63.0
    && q.kind == (var name := Lower(p.kind); if name == "snow" || name == "sleet" || name == "hail" then name else "rain")
  }

  lemma BytePair(a: nat, b: nat)
    requires a < 256 && b < 256
    ensures var w := Or(Shl(And(a, 0xFF), 8), And(b, 0xFF));
            0 <= w < 65536 && And(Shr(w, 8), 0xFF) == a && And(w, 0xFF) == b
  {
    hide And, Or, Pow2;
    Powers();
    AndIsRemainder(a, 8);
    AndIsRemainder(b, 8);
    OrIsSum(a, b, 8);
    var w := Or(Shl(And(a, 0xFF), 8), And(b, 0xFF));
    assert w == a * 256 + b && w / 256 == a && w % 256 == b;
    AndIsRemainder(w, 8);
    AndIsRemainder(Shr(w, 8), 8);
  }

  lemma ThreeFields(k: nat, r: nat, t: nat)
    requires k < 4 && r < 64 && t < 64
    ensures var w := Or(Or(Shl(k, 12), Shl(r, 6)), t);
            && 0 <= w < 65536
            && And(Shr(w, 12), 0xF) == k && And(Shr(w, 6), 0x3F) == r && And(w, 0x3F) == t
  {
    hide And, Or, Pow2;
    Powers();
    var high := k * 64 + r;
    assert Shl(k, 12) == Shl(Shl(k, 6), 6);
    OrOfShifts(Shl(k, 6), r, 6);
    OrIsSum(k, r, 6);
    OrIsSum(high, t, 6);
    var w := Or(Or(Shl(k, 12), Shl(r, 6)), t);
    assert w == high * 64 + t;
    Slots(w, k, r, t);
    AndIsRemainder(w, 6);
    AndIsRemainder(Shr(w, 6), 6);
    AndIsRemainder(Shr(w, 12), 4);
  }

  /** What the decoder's masks find in the two words of a representable point. */
  lemma PointFields(p: Point)
    requires Representable(p)
    ensures var w, v := PositionWord(p), ValueWord(p);
            && 0 <= w < 65536 && 0 <= v < 65536
            && And(Shr(w, 8), 0xFF) == (p.x * 10.0).Floor && And(w, 0xFF) == (p.y * 10.0).Floor
            && And(Shr(v, 12), 0xF) == KindCode(p.kind)
            && And(Shr(v, 6), 0x3F) == (p.rate / 2.0).Floor
            && And(v, 0x3F) == (p.intensity * 63.0).Floor
  {
    hide And, Or, Shl, Shr;
    BytePair(Truncate(p.x * 10.0), Truncate(p.y * 10.0));
    ThreeFields(KindCode(p.kind), Truncate(p.rate / 2.0), Truncate(p.intensity * 63.0));
  }

  lemma Slots(w: int, k: nat, r: nat, t: nat)
    requires k < 4 && r < 64 && t < 64 && w == (k * 64 + r) * 64 + t
    ensures w % 64 == t && w / 64 == k * 64 + r && w / 4096 == k && (w / 64) % 64 == r && 0 <= w < 65536
  {
  }

  lemma OrOfShifts(a: int, b: int, n: nat)
    ensures Or(Shl(a, n), Shl(b, n)) == Shl(Or(a, b), n)
  {
    forall i: nat ensures Bit(Or(Shl(a, n), Shl(b, n)), i) == Bit(Shl(Or(a, b), n), i) {
      BitOr(Shl(a, n), Shl(b, n), i);
      BitShl(a, n, i);
      BitShl(b, n, i);
      BitShl(Or(a, b), n, i);
      if i >= n {
        BitOr(a, b, i - n);
      }
    }
    SameBits(Or(Shl(a, n), Shl(b, n)), Shl(Or(a, b), n));
  }

  lemma KindRoundTrip(kind: string)
    ensures KindOf(KindCode(kind)) == (var name := Lower(kind); if name == "snow" || name == "sleet" || name == "hail" then name else "rain")
  {
  }

  /** Decoding the two words of a representable point gives the point rounded down to the packing's steps. */
  lemma PointRoundTrip(p: Point)
    requires Representable(p)
    ensures 0 <= PositionWord(p) < 65536 && 0 <= ValueWord(p) < 65536
    ensures RoundedDown(p, DecodePoint(PositionWord(p), ValueWord(p)))
  {
    PointFields(p);
    KindRoundTrip(p.kind);
    hide And, Or, Shr, PositionWord, ValueWord;
    FloorStep(p.x, 10.0);
    FloorStep(p.y, 10.0);
    FloorStep(p.intensity, 63.0);
    FloorStep(p.rate, 0.5);
    assert p.rate / 2.0 == p.rate * 0.5;
  }

  lemma FloorStep(v: real, scale: real)
    requires scale > 0.0
    ensures 0.0 <= v - (v * scale).Floor as real / scale < 1.0 / scale
  {
    var n := (v * scale).Floor as real;
    assert v == (v * scale) / scale;
    assert v - n / scale == (v * scale - n) / scale;
  }

  // ---------------------------------------------------------------- lists of points

  /** `format(n, '016b')`, sign included in the width. */
  function WordText(n: int): (w: string)
  {
    if n >= 0 then Format(n, 16) else "-" + Format(-n, 15)
  }

  function EncodePoint(p: Point): (words: seq<string>)
    ensures |words| == 2
  {
    [WordText(PositionWord(p)), WordText(ValueWord(p))]
  }

  function EncodePoints(points: seq<Point>): (words: seq<string>)
    ensures |words| == 2 * |points|
  {
    if points == [] then [] else EncodePoints(points[..|points| - 1]) + EncodePoint(points[|points| - 1])
  }

  method EncodePointList(points: seq<Point>, before: seq<string>) returns (words: seq<string>)
    ensures words == before + EncodePoints(points)
  {
    hide PositionWord, ValueWord, WordText;
    words := before;
    for i := 0 to |points|
      invariant words == before + EncodePoints(points[..i])
    {
      assert points[..i + 1][..i] == points[..i];
      words := words + [WordText(PositionWord(points[i]))];
      words := words + [WordText(ValueWord(points[i]))];
    }
    assert points[..|points|] == points;
  }

  /** `int(w, 2)`, or nothing when w is not a binary number. */
  function ReadWord(w: string): (n: Option<int>)
  {
    if w != "" && AllBits(w) then Some(Parse(w))
    else if |w| > 1 && w[0] == '-' && AllBits(w[1..]) then (var n: int := Parse(w[1..]); Some(-n))
    else None
  }

  /** The points read from the pairs of words from `pos` on; a pair that cannot be read is skipped. */
  function DecodePoints(words: seq<string>, pos: nat): (points: seq<Point>)
    decreases |words| - pos
  {
    if pos + 1 >= |words| then []
    else
      var position, values := ReadWord(words[pos]), ReadWord(words[pos + 1]);
      (if position.Some? && values.Some? then [DecodePoint(position.value, values.value)] else [])
      + DecodePoints(words, pos + 2)
  }

  method DecodePointList(words: seq<string>, start: nat) returns (points: seq<Point>)
    ensures points == DecodePoints(words, start)
  {
    hide ReadWord, DecodePoint;
    points := [];
    var current := start;
    while current + 1 < |words|
      invariant points + DecodePoints(words, current) == DecodePoints(words, start)
      decreases |words| - current
    {
      var position, values := ReadWord(words[current]), ReadWord(words[current + 1]);
      if position.Some? && values.Some? {
        points := points + [DecodePoint(position.value, values.value)];
      }
      current := current + 2;
    }
  }

  lemma RepresentableReads(p: Point)
    requires Representable(p)
    ensures ReadWord(EncodePoint(p)[0]) == Some(PositionWord(p)) && ReadWord(EncodePoint(p)[1]) == Some(ValueWord(p))
  {
    hide PositionWord, ValueWord, Format, Parse;
    PointRoundTrip(p);
    ParseFormat(PositionWord(p), 16);
    ParseFormat(ValueWord(p), 16);
  }

  lemma {:induction false} EncodedAt(points: seq<Point>, i: nat)
    requires i < |points|
    ensures EncodePoints(points)[2 * i] == EncodePoint(points[i])[0]
    ensures EncodePoints(points)[2 * i + 1] == EncodePoint(points[i])[1]
  {
    hide EncodePoint;
    var n := |points| - 1;
    if i < n {
      EncodedAt(points[..n], i);
    }
  }

  lemma {:induction false} DecodesFrom(before: seq<string>, points: seq<Point>, checksum: string, i: nat)
    requires i <= |points| && forall k :: 0 <= k < |points| ==> Representable(points[k])
    ensures var words := before + EncodePoints(points) + [checksum];
            var decoded := DecodePoints(words, |before| + 2 * i);
            && |decoded| == |points| - i
            && forall k :: i <= k < |points| ==> RoundedDown(points[k], decoded[k - i])
    decreases |points| - i
  {
    hide RoundedDown, Representable, DecodePoint, EncodePoint, EncodePoints, ReadWord, PositionWord, ValueWord;
    var words := before + EncodePoints(points) + [checksum];
    var pos := |before| + 2 * i;
    if i < |points| {
      EncodedAt(points, i);
      RepresentableReads(points[i]);
      PointRoundTrip(points[i]);
      DecodesFrom(before, points, checksum, i + 1);
      assert DecodePoints(words, pos)
          == [DecodePoint(PositionWord(points[i]), ValueWord(points[i]))] + DecodePoints(words, pos + 2);
    }
  }

  /** Encoding any list of representable points after any words and before one checksum word, then
      decoding from where the points start, gives the same number of points, each rounded down. */
  lemma PointListRoundTrip(before: seq<string>, points: seq<Point>, checksum: string)
    requires forall k :: 0 <= k < |points| ==> Representable(points[k])
    ensures var decoded := DecodePoints(before + EncodePoints(points) + [checksum], |before|);
            && |decoded| == |points|
            && forall k :: 0 <= k < |points| ==> RoundedDown(points[k], decoded[k])
  {
    DecodesFrom(before, points, checksum, 0);
  }

  /** A block that carries points is still self-delimiting only while it has at most 16 words, so a plain
      block of b words leaves room for (16 - b) / 2 points. */
  lemma PointsThatDelimit(m: Metadata, points: seq<Point>, payload: seq<string>)
    requires m.points == EncodePoints(points)
    ensures ExtractMetadataWords(EncodeMetadata(m) + payload) == Some((EncodeMetadata(m), payload))
       <==> 2 * |points| <= 16 - |EncodeMetadata(m.(points := []))|
  {
    SelfDelimitingIff(m, payload);
    hide ExtractMetadataWords, NameWords, IdWords, HeaderWord;
  }
}
