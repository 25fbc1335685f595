/** Bus messages as bit strings: a 16-bit command word followed by the data words. */
module Messages {
  import opened Binary
  import opened Wrappers

  const BC_TO_RT := 0
  const RT_TO_BC := 1
  const STANDARD := 0
  const BLOCK := 1
  const MAX_DATA_BITS := 512

  datatype Message = Message(
    rtAddress: nat,
    subAddress: nat,
    data: string,
    wordCount: nat,
    direction: int,
    transferType: int)

  /** What the constructor accepts; a word count it is not given is computed from the data. */
  function Construct(rtAddress: int, subAddress: int, data: string, wordCount: Result<nat>, direction: int, transferType: int): (r: Result<Message>)
    ensures r.Ok? ==> r.value.rtAddress <= 31 && r.value.subAddress <= 31 && |r.value.data| <= MAX_DATA_BITS
  {
    if rtAddress < 0 || rtAddress > 31 || subAddress < 0 || subAddress > 31 || |data| > MAX_DATA_BITS then ValueError
    else Ok(Message(rtAddress, subAddress, data, if wordCount.Ok? then wordCount.value else |data| / 16, direction, transferType))
  }

  /** A message is accepted exactly when its addresses have five bits and its data has at most 32 words of 16 bits. */
  lemma ConstructedIff(rtAddress: int, subAddress: int, data: string, wordCount: Result<nat>, direction: int, transferType: int)
    ensures Construct(rtAddress, subAddress, data, wordCount, direction, transferType).Ok?
       <==> 0 <= rtAddress < 32 && 0 <= subAddress < 32 && |data| <= 32 * 16
  {
  }

  predicate WellFormed(m: Message) {
    m.rtAddress <= 31 && m.subAddress <= 31 && |m.data| <= MAX_DATA_BITS
  }

  /** 32 data words from a list of integers: each printed with at least 16 digits. */
  function JoinWords(words: seq<nat>): (data: string)
  {
    if words == [] then "" else JoinWords(words[..|words| - 1]) + Format(words[|words| - 1], 16)
  }

  function CommandWord(m: Message): (s: string)
  {
    Format(m.rtAddress, 5) + (if m.direction == RT_TO_BC then "1" else "0") + Format(m.subAddress, 5) + Format(m.wordCount, 5)
  }

  function ToBinary(m: Message): (s: string)
  {
    if m.transferType == STANDARD then CommandWord(m) + m.data
    else CommandWord(m) + (Format(m.rtAddress, 5) + "00000" + "1" + "00000") + m.data
  }

  function FromBinary(b: string): (r: Result<Message>)
  {
    if |b| < 16 || !AllBits(b[..16]) then ValueError
    else
      var rt, sub, count := Parse(b[..5]), Parse(b[6..11]), Parse(b[11..16]);
      var direction := if b[5] == '1' then RT_TO_BC else BC_TO_RT;
      var expected := 16 + count * 16;
      var block := |b| >= expected + 16 && b[16..32][8] == '1';
      if |b| != (if block then expected + 16 else expected) then ValueError
      else Construct(rt, sub, b[if block then 32 else 16..], Ok(count), direction, if block then BLOCK else STANDARD)
  }

  // ---------------------------------------------------------------- command words

  /** The display side's constructor of the same command word. */
  function ConstructCommandWord(rtAddress: int, direction: int, subAddress: int, wordCount: int): (r: Result<string>)
  {
    if rtAddress < 0 || rtAddress > 31 then ValueError
    else if direction != 0 && direction != 1 then ValueError
    else if subAddress < 0 || subAddress > 31 then ValueError
    else if wordCount < 0 || wordCount > 32 then ValueError
    else
      Ok(Format(rtAddress, 5) + Format(direction, 1) + Format(subAddress, 5) + Format(if wordCount == 32 then 0 else wordCount, 5))
  }

  /** The bus controller's split of a command word. */
  function FormatCommand(command: string): (parts: (string, char, string, string))
    requires |command| == 16
  {
    (command[..5], command[5], command[6..11], command[11..])
  }

  lemma Fits5(n: nat)
    ensures |Format(n, 5)| == 5 <==> n <= 31
    ensures |Format(n, 5)| >= 5
  {
    FormatWidth(n, 5);
    assert Pow2(5) == 32 by {
      assert Pow2(1) == 2 && Pow2(2) == 4 && Pow2(3) == 8 && Pow2(4) == 16;
    }
  }

  lemma Joined(a: string, b: string, c: string, d: string)
    requires |a| == 5 && |b| == 1 && |c| == 5 && |d| == 5
    ensures var w := a + b + c + d;
            |w| == 16 && w[..5] == a && w[5] == b[0] && w[6..11] == c && w[11..16] == w[11..] == d
    ensures AllBits(a) && AllBits(b) && AllBits(c) && AllBits(d) ==> AllBits(a + b + c + d)
  {
  }

  lemma DirectionBit(direction: int)
    requires direction == 0 || direction == 1
    ensures Format(direction, 1) == (if direction == RT_TO_BC then "1" else "0")
  {
  }

  /** The pieces of a command word whose count fits in five bits. */
  lemma CommandWordParts(m: Message)
    requires m.rtAddress <= 31 && m.subAddress <= 31 && m.wordCount <= 31
    ensures var c := CommandWord(m);
            && |c| == 16 && AllBits(c)
            && c[..5] == Format(m.rtAddress, 5)
            && c[5] == (if m.direction == RT_TO_BC then '1' else '0')
            && c[6..11] == Format(m.subAddress, 5)
            && c[11..16] == Format(m.wordCount, 5)
  {
    hide Format;
    Fits5(m.rtAddress);
    Fits5(m.subAddress);
    Fits5(m.wordCount);
    Joined(Format(m.rtAddress, 5), if m.direction == RT_TO_BC then "1" else "0", Format(m.subAddress, 5), Format(m.wordCount, 5));
  }

  /** Parts in range: five-bit addresses, a direction bit and a count of at most 32. */
  predicate PartsInRange(rtAddress: int, direction: int, subAddress: int, wordCount: int) {
    0 <= rtAddress <= 31 && 0 <= direction <= 1 && 0 <= subAddress <= 31 && 0 <= wordCount <= 32
  }

  /** A command word is built for the display exactly when its parts are in range. It then splits back into
      them, the word count 32 travelling as 0 as section 4.3.3.5.1.5 of MIL-STD-1553B has it. */
  lemma CommandWordRoundTrip(rtAddress: int, direction: int, subAddress: int, wordCount: int)
    ensures var r := ConstructCommandWord(rtAddress, direction, subAddress, wordCount);
            && (r.Ok? <==> PartsInRange(rtAddress, direction, subAddress, wordCount))
            && (r.Ok? ==>
                 && |r.value| == 16 && AllBits(r.value)
                 && var (rt, tr, sub, count) := FormatCommand(r.value);
                    && Parse(rt) == rtAddress
                    && tr == (if direction == 1 then '1' else '0')
                    && Parse(sub) == subAddress
                    && Parse(count) == wordCount % 32)
  {
    hide Format, Parse, AllBits;
    if PartsInRange(rtAddress, direction, subAddress, wordCount) {
      PartsSplitBack(rtAddress, direction, subAddress, wordCount % 32);
      assert (if wordCount == 32 then 0 else wordCount) == wordCount % 32;
    }
  }

  lemma PartsSplitBack(rtAddress: nat, direction: nat, subAddress: nat, count: nat)
    requires rtAddress <= 31 && direction <= 1 && subAddress <= 31 && count <= 31
    ensures var word := Format(rtAddress, 5) + Format(direction, 1) + Format(subAddress, 5) + Format(count, 5);
            && |word| == 16 && AllBits(word)
            && AllBits(word[..5]) && AllBits(word[6..11]) && AllBits(word[11..])
            && Parse(word[..5]) == rtAddress && Parse(word[6..11]) == subAddress && Parse(word[11..]) == count
            && word[5] == (if direction == 1 then '1' else '0')
  {
    hide Format, Parse;
    DirectionBit(direction);
    Fits5(rtAddress);
    Fits5(subAddress);
    Fits5(count);
    hide AllBits;
    Joined(Format(rtAddress, 5), Format(direction, 1), Format(subAddress, 5), Format(count, 5));
    ParseFormat(rtAddress, 5);
    ParseFormat(subAddress, 5);
    ParseFormat(count, 5);
  }

  /** Both constructors of a command word agree on messages of at most 31 words. */
  lemma SameCommandWord(m: Message)
    requires m.rtAddress <= 31 && m.subAddress <= 31 && m.wordCount <= 31
    requires m.direction == BC_TO_RT || m.direction == RT_TO_BC
    ensures ConstructCommandWord(m.rtAddress, m.direction, m.subAddress, m.wordCount) == Ok(ToBinary(m)[..16])
  {
    hide Format;
    CommandWordParts(m);
    DirectionBit(m.direction);
    assert ToBinary(m)[..16] == CommandWord(m);
  }

  // ---------------------------------------------------------------- message round trip

  lemma ReadsCommand(m: Message, rest: string)
    requires m.rtAddress <= 31 && m.subAddress <= 31 && m.wordCount <= 31
    ensures var b := CommandWord(m) + rest;
            && |b| >= 16 && AllBits(b[..16]) && b[..16] == CommandWord(m)
            && Parse(b[..5]) == m.rtAddress && Parse(b[6..11]) == m.subAddress && Parse(b[11..16]) == m.wordCount
            && (b[5] == '1' <==> m.direction == RT_TO_BC)
            && b[16..] == rest
  {
    hide Parse, Format, CommandWord;
    CommandWordParts(m);
    ParseFormat(m.rtAddress, 5);
    ParseFormat(m.subAddress, 5);
    ParseFormat(m.wordCount, 5);
    var c, b := CommandWord(m), CommandWord(m) + rest;
    assert b[..16] == c && b[..5] == c[..5] && b[6..11] == c[6..11] && b[11..16] == c[11..16];
  }

  /** A standard message whose word count fits in five bits and counts its data reads back as itself. */
  lemma StandardRoundTrip(m: Message)
    requires WellFormed(m) && m.transferType == STANDARD
    requires m.wordCount <= 31 && |m.data| == 16 * m.wordCount
    requires m.direction == BC_TO_RT || m.direction == RT_TO_BC
    ensures FromBinary(ToBinary(m)) == Ok(m)
  {
    hide CommandWord, Parse;
    ReadsCommand(m, m.data);
  }

  /** Exactly which standard messages survive the trip: those of at most 31 words, whose count is that of
      their data, and that run between the bus controller and a terminal. A count of 32 is printed with
      six digits, so it shifts the data and is lost. */
  lemma StandardRoundTripIff(m: Message)
    requires WellFormed(m) && m.transferType == STANDARD
    ensures FromBinary(ToBinary(m)) == Ok(m)
       <==> m.wordCount <= 31 && |m.data| == 16 * m.wordCount && (m.direction == BC_TO_RT || m.direction == RT_TO_BC)
  {
    if m.wordCount <= 31 {
      ReadsCommand(m, m.data);
    } else {
      CountReadSmall(ToBinary(m));
    }
  }

  /** Printing what was read back gives the same bits, for every string accepted as a standard message. */
  lemma ReadThenPrint(b: string)
    requires var r := FromBinary(b); r.Ok? && r.value.transferType == STANDARD
    ensures ToBinary(FromBinary(b).value) == b
  {
    hide Parse, Format;
    FormatParse(b[..5]);
    FormatParse(b[6..11]);
    FormatParse(b[11..16]);
    assert IsBit(b[..16][5]);
    assert b == b[..5] + [b[5]] + b[6..11] + b[11..16] + b[16..];
  }

  /** No block transfer can be read back, whatever its count and data: the writer sets bit 10 of the status word
      where the reader tests bit 8. When the count is right the reader takes the status word for surplus data. */
  lemma BlockTransfersRefused(m: Message)
    requires WellFormed(m) && m.transferType != STANDARD
    ensures FromBinary(ToBinary(m)) != Ok(m)
    ensures m.wordCount <= 31 && |m.data| == 16 * m.wordCount ==> FromBinary(ToBinary(m)) == ValueError
  {
    var status := Format(m.rtAddress, 5) + "00000" + "1" + "00000";
    Fits5(m.rtAddress);
    assert |status| == 16 && status[8] == '0';
    assert ToBinary(m) == CommandWord(m) + (status + m.data);
    var b := ToBinary(m);
    if m.wordCount <= 31 {
      ReadsCommand(m, status + m.data);
      assert b[16..32] == b[16..][..16] == status;
    } else {
      CountReadSmall(b);
    }
  }

  /** A count read back is at most 31. */
  lemma CountReadSmall(b: string)
    ensures FromBinary(b).Ok? ==> FromBinary(b).value.wordCount <= 31
  {
    if FromBinary(b).Ok? {
      ParseBound(b[11..16]);
      assert Pow2(5) == 32 by {
        assert Pow2(1) == 2 && Pow2(2) == 4 && Pow2(3) == 8 && Pow2(4) == 16;
      }
    }
  }

  /** A message built from a list of 16-bit integers carries 16 bits a word and is counted right. */
  lemma {:induction false} JoinedLength(words: seq<nat>)
    requires forall i :: 0 <= i < |words| ==> words[i] < 0x10000
    ensures |JoinWords(words)| == 16 * |words| && AllBits(JoinWords(words))
    ensures forall i :: 0 <= i < |words| ==> Parse(JoinWords(words)[16 * i..16 * i + 16]) == words[i]
  {
    hide Format, Parse;
    if words != [] {
      var n := |words| - 1;
      var front, last := words[..n], Format(words[n], 16);
      JoinedLength(front);
      Word16(words[n]);
      var data := JoinWords(words);
      assert data == JoinWords(front) + last;
      forall i | 0 <= i < |words| ensures Parse(data[16 * i..16 * i + 16]) == words[i] {
        if i < n {
          assert data[16 * i..16 * i + 16] == JoinWords(front)[16 * i..16 * i + 16];
          assert front[i] == words[i];
        } else {
          assert data[16 * n..16 * n + 16] == last;
        }
      }
    }
  }

  lemma Word16(n: nat)
    requires n < 0x10000
    ensures |Format(n, 16)| == 16 && Parse(Format(n, 16)) == n
  {
    hide Format, Parse;
    FormatWidth(n, 16);
    ParseFormat(n, 16);
    Pow2Sum(8, 8);
    assert Pow2(8) == 256 by {
      assert Pow2(1) == 2 && Pow2(2) == 4 && Pow2(3) == 8 && Pow2(4) == 16 && Pow2(5) == 32 && Pow2(6) == 64 && Pow2(7) == 128;
    }
  }

  /** Any list of at most 31 sixteen-bit words, in either direction, sent as a standard message arrives as
      the same address, direction, subaddress, count and words. */
  lemma WordsRoundTrip(rtAddress: nat, subAddress: nat, words: seq<nat>, direction: int)
    requires rtAddress <= 31 && subAddress <= 31 && |words| <= 31
    requires direction == BC_TO_RT || direction == RT_TO_BC
    requires forall i :: 0 <= i < |words| ==> words[i] < 0x10000
    ensures var built := Construct(rtAddress, subAddress, JoinWords(words), ValueError, direction, STANDARD);
            && built.Ok?
            && built.value.wordCount == |words|
            && FromBinary(ToBinary(built.value)) == built
            && forall i :: 0 <= i < |words| ==>
                 |built.value.data| == 16 * |words| && AllBits(built.value.data)
                 && Parse(built.value.data[16 * i..16 * i + 16]) == words[i]
  {
    hide ToBinary, FromBinary, Parse;
    JoinedLength(words);
    StandardRoundTrip(Construct(rtAddress, subAddress, JoinWords(words), ValueError, direction, STANDARD).value);
  }
}
