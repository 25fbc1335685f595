/** 20-bit bus frames: building one from a 16-bit word, checking parity, and recovering frames
    from a run of bits. */
module Frames {
  import opened Binary
  import opened Collections

  const COMMAND_SYNC := "100"
  const DATA_SYNC := "001"

  // ---------------------------------------------------------------- building a frame

  function CalculateParity(word: string): (c: char)
  {
    if Ones(word) % 2 == 0 then '1' else '0'
  }

  function AddSyncAndParity(word: string, isCommand: bool): (frame: string)
  {
    var wordWithSync := (if isCommand then COMMAND_SYNC else DATA_SYNC) + word;
    var frame := wordWithSync + [CalculateParity(wordWithSync)];
    if Ones(frame) % 2 != 1 then CorrectParity(frame) else frame
  }

  /** The repair the encoder applies to a frame of even weight. */
  function CorrectParity(frame: string): (fixed: string)
    requires |frame| >= 1
  {
    var front := frame[..|frame| - 1];
    front + [if Ones(front) % 2 == 1 then '0' else '1']
  }

  lemma OnesAppend(front: string, c: char)
    ensures Ones(front + [c]) == Ones(front) + (if c == '1' then 1 else 0)
  {
    assert (front + [c])[..|front|] == front;
  }

  /** Whatever the word, the encoder's repair branch is never taken: the frame is sync, word and one
      parity character that makes its weight odd. */
  lemma RepairUnreachable(word: string, isCommand: bool)
    ensures var body := (if isCommand then COMMAND_SYNC else DATA_SYNC) + word;
            && Ones(body + [CalculateParity(body)]) % 2 == 1
            && AddSyncAndParity(word, isCommand) == body + [CalculateParity(body)]
  {
    var body := (if isCommand then COMMAND_SYNC else DATA_SYNC) + word;
    OnesAppend(body, CalculateParity(body));
  }

  /** The parity bit is odd over sync and word together. Each sync has a single one among its bits, so for every
      word the bit is the opposite of the standard's odd parity over the word alone (MIL-STD-1553B, section 4.3.3.5.1.6). */
  lemma ParityIsOpposite(word: string, isCommand: bool)
    requires |word| == 16
    ensures |AddSyncAndParity(word, isCommand)| == 20
    ensures AddSyncAndParity(word, isCommand)[19] != CalculateParity(word)
    ensures Ones(AddSyncAndParity(word, isCommand)) % 2 == 1
  {
    var sync := if isCommand then COMMAND_SYNC else DATA_SYNC;
    RepairUnreachable(word, isCommand);
    OnesConcat(sync, word);
    assert sync[..2][..1][..0] == "";
    assert Ones(sync) == 1;
  }

  // ---------------------------------------------------------------- checking a frame

  predicate ValidateParity(frame: string)
  {
    |frame| == 20 && frame[19] == (if Ones(frame[..19]) % 2 == 0 then '1' else '0')
  }

  predicate HasSync(s: string) {
    COMMAND_SYNC <= s || DATA_SYNC <= s
  }

  /** What the scanner accepts as a frame. */
  predicate ValidFrame(f: string) {
    |f| == 20 && AllBits(f) && HasSync(f) && ValidateParity(f)
  }

  /** On binary text the parity check is the statement that the whole frame has odd weight. */
  lemma ParityIsOddWeight(frame: string)
    requires |frame| == 20 && AllBits(frame)
    ensures ValidateParity(frame) <==> Ones(frame) % 2 == 1
  {
    assert frame == frame[..19] + [frame[19]];
    OnesAppend(frame[..19], frame[19]);
  }

  /** The number of positions at which two equally long strings differ. */
  function Distance(f: string, g: string): (d: nat)
    requires |f| == |g|
    ensures d <= |f| && (d == 0 <==> f == g)
  {
    if |f| == 0 then 0
    else
      var n := |f| - 1;
      assert f == f[..n] + [f[n]] && g == g[..n] + [g[n]];
      Distance(f[..n], g[..n]) + (if f[n] != g[n] then 1 else 0)
  }

  lemma {:induction false} DistanceParity(f: string, g: string)
    requires |f| == |g| && AllBits(f) && AllBits(g)
    ensures (Ones(f) + Ones(g) + Distance(f, g)) % 2 == 0
  {
    if |f| > 0 {
      var n := |f| - 1;
      DistanceParity(f[..n], g[..n]);
      assert IsBit(f[n]) && IsBit(g[n]);
    }
  }

  /** Corrupting a good frame is caught exactly when an odd number of its bits is flipped. */
  lemma FlipsDetected(frame: string, received: string)
    requires |frame| == |received| == 20 && AllBits(frame) && AllBits(received)
    requires ValidateParity(frame)
    ensures !ValidateParity(received) <==> Distance(frame, received) % 2 == 1
  {
    ParityIsOddWeight(frame);
    ParityIsOddWeight(received);
    DistanceParity(frame, received);
  }

  /** Every 16-bit word becomes a valid frame that carries it unchanged in bits 3 to 18. */
  lemma FramedWordIsValid(word: string, isCommand: bool)
    requires |word| == 16 && AllBits(word)
    ensures var f := AddSyncAndParity(word, isCommand);
            && ValidFrame(f)
            && f[3..19] == word
            && (isCommand <==> COMMAND_SYNC <= f)
  {
    var f := AddSyncAndParity(word, isCommand);
    RepairUnreachable(word, isCommand);
    var sync := if isCommand then COMMAND_SYNC else DATA_SYNC;
    assert sync <= f;
    assert f[0] == sync[0];
    ParityIsOddWeight(f);
  }

  // ---------------------------------------------------------------- scanning

  /** The 20 characters of s from pos, or nothing when fewer are left. */
  function Window(s: string, pos: nat): (w: string)
  {
    if pos + 20 <= |s| then s[pos..pos + 20] else ""
  }

  predicate FrameAt(s: string, pos: nat) {
    pos + 20 <= |s| && HasSync(Window(s, pos)) && ValidateParity(Window(s, pos))
  }

  /** The starts the sliding window accepts, from `pos` on. */
  function ScanFrom(s: string, pos: nat): (starts: seq<nat>)
    ensures forall i :: 0 <= i < |starts| ==> pos <= starts[i] && FrameAt(s, starts[i])
    ensures forall i, j :: 0 <= i < j < |starts| ==> starts[i] + 20 <= starts[j]
    decreases |s| - pos
  {
    if pos + 20 > |s| then []
    else if FrameAt(s, pos) then [pos] + ScanFrom(s, pos + 20)
    else ScanFrom(s, pos + 1)
  }

  function FramesAt(s: string, starts: seq<nat>): (frames: seq<string>)
    ensures |frames| == |starts|
    ensures forall i :: 0 <= i < |starts| ==> frames[i] == Window(s, starts[i])
  {
    seq(|starts|, i requires 0 <= i < |starts| => Window(s, starts[i]))
  }

  function FramesFrom(s: string, pos: nat): (frames: seq<string>)
  {
    FramesAt(s, ScanFrom(s, pos))
  }

  lemma FramesStep(s: string, pos: nat)
    ensures pos + 20 > |s| ==> FramesFrom(s, pos) == []
    ensures FrameAt(s, pos) ==> FramesFrom(s, pos) == [Window(s, pos)] + FramesFrom(s, pos + 20)
    ensures pos + 20 <= |s| && !FrameAt(s, pos) ==> FramesFrom(s, pos) == FramesFrom(s, pos + 1)
  {
    hide HasSync, ValidateParity;
  }

  /** The result of splitting one text item. */
  function Split(s: string): (frames: seq<string>)
  {
    if !AllBits(s) || |s| <= 20 then [s] else FramesFrom(s, 0)
  }

  lemma SyncAt(s: string, pos: nat)
    requires pos + 20 <= |s|
    ensures HasSync(Window(s, pos)) <==> s[pos..pos + 3] == "100" || s[pos..pos + 3] == "001"
  {
    var w := Window(s, pos);
    assert w[..3] == s[pos..pos + 3];
    assert HasSync(w) <==> w[..3] == COMMAND_SYNC || w[..3] == DATA_SYNC;
  }

  method SplitOversizedFrames(oversized: string) returns (frames: seq<string>)
    ensures frames == Split(oversized)
  {
    hide HasSync, ValidateParity, FramesFrom;
    if !AllBits(oversized) {
      return [oversized];
    }
    if |oversized| <= 20 {
      return [oversized];
    }
    frames := [];
    var pos := 0;
    while pos <= |oversized| - 20
      invariant 0 <= pos <= |oversized|
      invariant frames + FramesFrom(oversized, pos) == FramesFrom(oversized, 0)
      decreases |oversized| - pos
    {
      FramesStep(oversized, pos);
      SyncAt(oversized, pos);
      if oversized[pos..pos + 3] == "100" || oversized[pos..pos + 3] == "001" {
        var candidate := oversized[pos..pos + 20];
        if ValidateParity(candidate) {
          assert frames + ([candidate] + FramesFrom(oversized, pos + 20))
              == (frames + [candidate]) + FramesFrom(oversized, pos + 20);
          frames := frames + [candidate];
          pos := pos + 20;
        } else {
          pos := pos + 1;
        }
      } else {
        pos := pos + 1;
      }
    }
    FramesStep(oversized, pos);
  }

  /** Text that is short or not binary is handed on whole. */
  lemma OtherTextIsWhole(s: string)
    requires |s| <= 20 || exists i :: 0 <= i < |s| && s[i] != '0' && s[i] != '1'
    ensures Split(s) == [s]
  {
  }

  // ---------------------------------------------------------------- optimality

  /** A choice of pairwise non-overlapping valid frames in s. */
  ghost predicate FrameChoice(s: string, starts: set<nat>) {
    && (forall p :: p in starts ==> FrameAt(s, p))
    && (forall p, q :: p in starts && q in starts && p < q ==> p + 20 <= q)
  }

  lemma {:induction false} ScanBeatsFrom(s: string, pos: nat, choice: set<nat>)
    requires FrameChoice(s, choice)
    requires forall p :: p in choice ==> pos <= p
    ensures |choice| <= |ScanFrom(s, pos)|
    decreases |s| - pos
  {
    hide HasSync, ValidateParity;
    if choice != {} {
      var first := Least(choice);
      assert FrameAt(s, first);
      if FrameAt(s, pos) {
        var rest := choice - {first};
        forall q | q in rest ensures pos + 20 <= q {
          assert first < q;
        }
        ScanBeatsFrom(s, pos + 20, rest);
        assert |choice| == |rest| + 1;
      } else {
        ScanBeatsFrom(s, pos + 1, choice);
      }
    }
  }

  /** Scan optimality: on every binary string of more than 20 bits the scanner's frames are valid,
      in order and non-overlapping, and no other non-overlapping choice has more of them. */
  lemma ScanIsOptimal(s: string, choice: set<nat>)
    requires AllBits(s) && |s| > 20
    requires FrameChoice(s, choice)
    ensures var starts := ScanFrom(s, 0);
            && Split(s) == FramesAt(s, starts)
            && (forall i :: 0 <= i < |starts| ==> ValidFrame(Split(s)[i]))
            && (forall i, j :: 0 <= i < j < |starts| ==> starts[i] + 20 <= starts[j])
            && |choice| <= |Split(s)|
  {
    ScanBeatsFrom(s, 0, choice);
  }

  // ---------------------------------------------------------------- round trip

  function Concat(frames: seq<string>): (s: string)
  {
    if |frames| == 0 then "" else frames[0] + Concat(frames[1..])
  }

  lemma WindowsShift(f: string, rest: string, starts: seq<nat>, tail: seq<nat>)
    requires |f| == 20 && |starts| == |tail| + 1 && starts[0] == 0
    requires forall i :: 0 <= i < |tail| ==> starts[1..][i] == 20 + tail[i]
    ensures FramesAt(f + rest, starts) == [f] + FramesAt(rest, tail)
  {
    assert Window(f + rest, 0) == f;
    forall i | 0 < i < |starts| ensures Window(f + rest, starts[i]) == Window(rest, tail[i - 1]) {
      assert starts[i] == starts[1..][i - 1] == 20 + tail[i - 1];
    }
  }

  lemma {:induction false} ScanShift(f: string, rest: string, pos: nat)
    ensures var whole := ScanFrom(f + rest, |f| + pos);
            && |whole| == |ScanFrom(rest, pos)|
            && forall i :: 0 <= i < |whole| ==> whole[i] == |f| + ScanFrom(rest, pos)[i]
    decreases |rest| - pos
  {
    hide HasSync, ValidateParity;
    if pos + 20 <= |rest| {
      assert Window(f + rest, |f| + pos) == Window(rest, pos);
      if FrameAt(rest, pos) {
        ScanShift(f, rest, pos + 20);
      } else {
        ScanShift(f, rest, pos + 1);
      }
    }
  }

  lemma {:induction false} ScanConcat(frames: seq<string>)
    requires forall i :: 0 <= i < |frames| ==> ValidFrame(frames[i])
    ensures var s := Concat(frames);
            && |s| == 20 * |frames| && AllBits(s)
            && FramesAt(s, ScanFrom(s, 0)) == frames
  {
    if |frames| > 0 {
      ScanConcat(frames[1..]);
      ScanFirst(frames[0], Concat(frames[1..]));
      assert frames == [frames[0]] + frames[1..];
    }
  }

  lemma ScanFirst(f: string, rest: string)
    requires ValidFrame(f) && AllBits(rest)
    ensures AllBits(f + rest)
    ensures FramesAt(f + rest, ScanFrom(f + rest, 0)) == [f] + FramesAt(rest, ScanFrom(rest, 0))
  {
    var s := f + rest;
    assert Window(s, 0) == f;
    ScanShift(f, rest, 0);
    var starts, tail := ScanFrom(s, 0), ScanFrom(rest, 0);
    assert starts == [0] + ScanFrom(s, 20);
    hide ScanFrom, ValidFrame;
    WindowsShift(f, rest, starts, tail);
  }

  /** Concatenating two or more valid frames and splitting the result gives back exactly them. */
  lemma SplitConcat(frames: seq<string>)
    requires |frames| >= 2
    requires forall i :: 0 <= i < |frames| ==> ValidFrame(frames[i])
    ensures Split(Concat(frames)) == frames
  {
    ScanConcat(frames);
  }

  function FrameWords(words: seq<string>, commands: seq<bool>): (frames: seq<string>)
    requires |words| == |commands|
    ensures |frames| == |words|
    ensures forall i :: 0 <= i < |words| ==> frames[i] == AddSyncAndParity(words[i], commands[i])
  {
    seq(|words|, i requires 0 <= i < |words| => AddSyncAndParity(words[i], commands[i]))
  }

  /** Frame round trip: framing any two or more 16-bit words, concatenating and splitting returns
      exactly those frames, and each still carries its word. */
  lemma FrameRoundTrip(words: seq<string>, commands: seq<bool>)
    requires |words| == |commands| && |words| >= 2
    requires forall i :: 0 <= i < |words| ==> |words[i]| == 16 && AllBits(words[i])
    ensures var frames := FrameWords(words, commands);
            && Split(Concat(frames)) == frames
            && ValidateFrames(frames) == frames
            && forall i :: 0 <= i < |words| ==> |frames[i]| == 20 && frames[i][3..19] == words[i]
  {
    var frames := FrameWords(words, commands);
    forall i | 0 <= i < |words|
      ensures ValidFrame(frames[i]) && frames[i][3..19] == words[i]
    {
      FramedWordIsValid(words[i], commands[i]);
    }
    SplitConcat(frames);
    ValidateKeepsFrames(frames);
  }

  // ---------------------------------------------------------------- frame validation

  /** The 20-character frame the validator would keep for f, before its sync check: padded on the
      right when 18 or 19 long, cut when 21 or 22 long, dropped when further off. */
  function Fit(f: string): (fixed: string)
    ensures fixed == "" || |fixed| == 20
  {
    if |f| == 20 then f
    else if 18 <= |f| < 20 then f + Zeros(20 - |f|)
    else if 20 < |f| <= 22 then f[..20]
    else ""
  }

  function ValidateFrames(frames: seq<string>): (kept: seq<string>)
    ensures forall i :: 0 <= i < |kept| ==> |kept[i]| == 20 && HasSync(kept[i])
    ensures |kept| <= |frames|
  {
    if |frames| == 0 then []
    else
      var front := ValidateFrames(frames[..|frames| - 1]);
      var f := Fit(frames[|frames| - 1]);
      if f != "" && HasSync(f) then front + [f] else front
  }

  method Validate1553bFrames(frames: seq<string>) returns (kept: seq<string>)
    ensures kept == ValidateFrames(frames)
  {
    if frames == [] {
      return [];
    }
    kept := [];
    for i := 0 to |frames|
      invariant kept == ValidateFrames(frames[..i])
    {
      assert frames[..i + 1][..i] == frames[..i];
      var frame := frames[i];
      if |frame| != 20 {
        if 18 <= |frame| <= 22 {
          if |frame| < 20 {
            frame := frame + Zeros(20 - |frame|);
          } else {
            frame := frame[..20];
          }
        } else {
          continue;
        }
      }
      var sync := frame[..3];
      if sync != "100" && sync != "001" {
        continue;
      }
      kept := kept + [frame];
    }
    assert frames[..|frames|] == frames;
  }

  /** Validation leaves a list of 20-bit frames with good sync untouched. */
  lemma {:induction false} ValidateKeepsFrames(frames: seq<string>)
    requires forall i :: 0 <= i < |frames| ==> |frames[i]| == 20 && HasSync(frames[i])
    ensures ValidateFrames(frames) == frames
  {
    if |frames| > 0 {
      var n := |frames| - 1;
      ValidateKeepsFrames(frames[..n]);
      assert frames == frames[..n] + [frames[n]];
    }
  }

  /** What the validator makes of a good frame with trailing bits too many or too few: one or two too many are cut off
      again, one or two lost come back as zeros, and with more than that the frame is dropped. */
  lemma DamagedFrame(frame: string, extra: string, lost: nat)
    requires |frame| == 20 && HasSync(frame) && lost <= 20
    ensures ValidateFrames([frame + extra]) == if |extra| <= 2 then [frame] else []
    ensures lost <= 2 ==> ValidateFrames([frame[..20 - lost]]) == [frame[..20 - lost] + Zeros(lost)]
    ensures 2 < lost ==> ValidateFrames([frame[..20 - lost]]) == []
  {
    var longer, shorter := frame + extra, frame[..20 - lost];
    OneFrame(longer);
    OneFrame(shorter);
    assert longer[..20] == frame && (extra == "" ==> longer == frame);
    assert shorter + Zeros(0) == shorter;
    if lost <= 2 {
      assert Zeros(lost) + [] == Zeros(lost);
      SyncStays(frame, shorter + Zeros(lost));
    }
  }

  lemma OneFrame(f: string)
    ensures ValidateFrames([f]) == if Fit(f) != "" && HasSync(Fit(f)) then [Fit(f)] else []
  {
    assert [f][..0] == [];
  }

  lemma SyncStays(f: string, g: string)
    requires HasSync(f) && |f| >= 3 && |g| >= 3 && f[..3] == g[..3]
    ensures HasSync(g)
  {
    assert f[..3] == COMMAND_SYNC || f[..3] == DATA_SYNC;
  }
}
