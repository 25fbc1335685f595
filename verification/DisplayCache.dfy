/** The display side's cache of command words, under its own joined string key. */
module DisplayCache {
  import opened Binary
  import opened MemoCache
  import opened Text
  import Messages
  import opened Wrappers

  datatype Error = InvalidDisplay | InvalidCommandType | InvalidPart

  datatype Request = Request(displayId: string, direction: int, commandType: string)

  const DISPLAY_RT_ADDRESS := 11

  /** `str(n)`. */
  function ShowInt(n: int): (s: string) {
    if n < 0 then "-" + Show(-n) else Show(n)
  }

  function CacheKey(q: Request): (key: string) {
    q.displayId + "_" + ShowInt(q.direction) + "_" + q.commandType
  }

  function WordCount(commandType: string): (count: Option<nat>) {
    if commandType == "show" then Some(1)
    else if commandType == "mode" || commandType == "mode_change" then Some(2)
    else if commandType == "data" then Some(3)
    else if commandType == "status" then Some(1)
    else None
  }

  /** The word constructed from the request alone. */
  function Built(displays: string -> Option<int>, q: Request): (r: Outcome<Error>) {
    var subaddress, count := displays(q.displayId), WordCount(q.commandType);
    if subaddress.None? then Refused(InvalidDisplay)
    else if count.None? then Refused(InvalidCommandType)
    else
      var word := Messages.ConstructCommandWord(DISPLAY_RT_ADDRESS, q.direction, subaddress.value, count.value);
      if word.Ok? then Word(word.value) else Refused(InvalidPart)
  }

  function Builder(displays: string -> Option<int>): (build: Request -> Outcome<Error>) {
    q => Built(displays, q)
  }

  class DisplayCommands {
    const displays: string -> Option<int>
    var cache: map<string, string>

    constructor (displays: string -> Option<int>)
      ensures this.displays == displays && cache == map[]
    {
      this.displays := displays;
      cache := map[];
    }

    method GetCommandWord(displayId: string, direction: int, commandType: string) returns (r: Outcome<Error>)
      modifies this`cache
      ensures (cache, r) == Lookup(CacheKey, Builder(displays), old(cache), Request(displayId, direction, commandType))
    {
      var key := displayId + "_" + ShowInt(direction) + "_" + commandType;
      if key in cache {
        return Word(cache[key]);
      }
      var subaddress := displays(displayId);
      if subaddress.None? {
        return Refused(InvalidDisplay);
      }
      var wordCount: nat;
      if commandType == "show" {
        wordCount := 1;
      } else if commandType == "mode" || commandType == "mode_change" {
        wordCount := 2;
      } else if commandType == "data" {
        wordCount := 3;
      } else if commandType == "status" {
        wordCount := 1;
      } else {
        return Refused(InvalidCommandType);
      }
      var word := Messages.ConstructCommandWord(DISPLAY_RT_ADDRESS, direction, subaddress.value, wordCount);
      if word.ValueError? {
        return Refused(InvalidPart);
      }
      cache := cache[key := word.value];
      return Word(word.value);
    }
  }

  /** A display's word carries the displays' terminal address, the display's subaddress, the direction asked for and the
      count of the command type; it is refused exactly when one of them is unknown or out of range. */
  lemma BuiltReads(displays: string -> Option<int>, q: Request)
    ensures var r, sub := Built(displays, q), displays(q.displayId);
            && (r.Word? <==> sub.Some? && 0 <= sub.value <= 31 && WordCount(q.commandType).Some? && 0 <= q.direction <= 1)
            && (r.Word? ==>
                  && |r.bits| == 16 && AllBits(r.bits)
                  && Parse(r.bits[..5]) == 11 && Parse(r.bits[6..11]) == sub.value
                  && r.bits[5] == (if q.direction == 1 then '1' else '0')
                  && WordCount(q.commandType) == Some(Parse(r.bits[11..])))
  {
    var sub, count := displays(q.displayId), WordCount(q.commandType);
    assert count.Some? ==> count.value <= 3;
    hide WordCount, Messages.ConstructCommandWord, Parse, AllBits;
    if sub.Some? && count.Some? {
      Messages.CommandWordRoundTrip(DISPLAY_RT_ADDRESS, q.direction, sub.value, count.value);
      assert count.value % 32 == count.value;
    }
  }

  /* ---- The key tells any two requests with a known command type apart ---- */

  predicate Known(q: Request) {
    WordCount(q.commandType).Some?
  }

  /** The last parts of the known command types. */
  const ENDINGS: set<string> := {"show", "mode", "change", "data", "status"}

  function Ending(commandType: string): (s: string) {
    var parts := Split(commandType, '_');
    parts[|parts| - 1]
  }

  /** A known command type, or one whose last part could not end a known one. */
  predicate Separable(q: Request) {
    Known(q) || Ending(q.commandType) !in ENDINGS
  }

  lemma KeyParts(q: Request)
    ensures Split(CacheKey(q), '_') == Split(q.displayId, '_') + [ShowInt(q.direction)] + Split(q.commandType, '_')
  {
    hide Split, Show;
    var direction := ShowInt(q.direction);
    SplitAround(direction, q.commandType, '_');
    SplitAround(q.displayId, direction + "_" + q.commandType, '_');
    assert CacheKey(q) == q.displayId + "_" + (direction + "_" + q.commandType);
    SplitNothing(direction, '_');
  }

  lemma SignShows(n: int)
    ensures ShowInt(n) != "" && (ShowInt(n)[0] == '-' <==> n < 0)
  {
    hide Show;
  }

  lemma ShowIntInjective(n: int, m: int)
    requires ShowInt(n) == ShowInt(m)
    ensures n == m
  {
    hide Show;
    SignShows(n);
    SignShows(m);
    if n < 0 {
      assert Show(-n) == ShowInt(n)[1..] == ShowInt(m)[1..] == Show(-m);
      ShowInjective(-n, -m);
    } else {
      ShowInjective(n, m);
    }
  }

  lemma Plain(commandType: string)
    requires commandType in {"show", "mode", "data", "status"}
    ensures Split(commandType, '_') == [commandType]
  {
    hide Split;
    var show, mode, data, status := "show", "mode", "data", "status";
    assert '_' !in show;
    assert '_' !in mode;
    assert '_' !in data;
    assert '_' !in status;
    SplitNothing(commandType, '_');
  }

  lemma ModeChange()
    ensures Split("mode_change", '_') == ["mode", "change"]
  {
    hide Split;
    var mode, change := "mode", "change";
    assert mode + ['_'] + change == "mode_change";
    assert '_' !in mode;
    assert '_' !in change;
    SplitAround(mode, change, '_');
    SplitNothing(mode, '_');
    SplitNothing(change, '_');
  }

  /** A known command type is recognised by its last part. */
  lemma KnownEndings(a: Request, b: Request)
    requires Known(a)
    ensures Ending(a.commandType) in ENDINGS
    ensures Known(b) && Ending(a.commandType) == Ending(b.commandType) ==> a.commandType == b.commandType
  {
    hide Split;
    ModeChange();
    if a.commandType != "mode_change" {
      Plain(a.commandType);
    }
    if Known(b) && b.commandType != "mode_change" {
      Plain(b.commandType);
    }
    assert |"change"| == 6 && |"status"| == 6 && "change"[0] != "status"[0];
  }

  lemma PartsApart(front: seq<string>, d: string, back: seq<string>, front': seq<string>, d': string, back': seq<string>)
    requires front + [d] + back == front' + [d'] + back' && |back| == |back'|
    ensures front == front' && d == d' && back == back'
  {
    var whole := front + [d] + back;
    assert whole[..|front|] == front && whole[..|front'|] == front';
    assert whole[|front|] == d && whole[|front'|] == d';
    assert whole[|front| + 1..] == back && whole[|front'| + 1..] == back';
  }

  lemma SameLast(front: seq<string>, back: seq<string>, front': seq<string>, back': seq<string>)
    requires back != [] && back' != [] && front + back == front' + back'
    ensures back[|back| - 1] == back'[|back'| - 1]
  {
    var whole := front + back;
    assert whole[|whole| - 1] == back[|back| - 1];
    assert (front' + back')[|whole| - 1] == back'[|back'| - 1];
  }

  /** Whatever the display is called, a separable request shares its key with a known one only if it is the same request. */
  lemma SameKeyIff(w: Request, q: Request)
    requires Known(w) && Separable(q)
    ensures CacheKey(w) == CacheKey(q) <==> w == q
  {
    if CacheKey(w) == CacheKey(q) {
      KeyParts(w);
      KeyParts(q);
      KnownEndings(w, q);
      SameParts(w, q);
    }
  }

  lemma SameParts(w: Request, q: Request)
    requires Known(w) && Separable(q) && Ending(w.commandType) in ENDINGS
    requires Known(q) && Ending(w.commandType) == Ending(q.commandType) ==> w.commandType == q.commandType
    requires Split(w.displayId, '_') + [ShowInt(w.direction)] + Split(w.commandType, '_')
             == Split(q.displayId, '_') + [ShowInt(q.direction)] + Split(q.commandType, '_')
    ensures w == q
  {
    hide Split, ShowInt, Known, ENDINGS;
    var dw, dq := Split(w.displayId, '_'), Split(q.displayId, '_');
    var tw, tq := Split(w.commandType, '_'), Split(q.commandType, '_');
    SameLast(dw + [ShowInt(w.direction)], tw, dq + [ShowInt(q.direction)], tq);
    PartsApart(dw, ShowInt(w.direction), tw, dq, ShowInt(q.direction), tq);
    SplitInjective(w.displayId, q.displayId, '_');
    ShowIntInjective(w.direction, q.direction);
  }

  /* ---- Whole histories ---- */

  /** Of separable requests, the key of one that has a word tells which request it is. */
  lemma KeyTellsWord(displays: string -> Option<int>)
    ensures KeyTells(CacheKey, Builder(displays), Separable)
  {
    forall w | Built(displays, w).Word? ensures Known(w) {
    }
    hide Built, CacheKey, Known, Separable;
    forall w, q | Separable(w) && Separable(q) && Built(displays, w).Word? && CacheKey(w) == CacheKey(q)
      ensures Built(displays, w) == Built(displays, q)
    {
      SameKeyIff(w, q);
    }
  }

  /** From an empty cache, every separable request of any history gets exactly what building it anew gives, errors included. */
  lemma CommandsAreInvisible(displays: string -> Option<int>, requests: seq<Request>)
    requires forall i :: 0 <= i < |requests| ==> Separable(requests[i])
    ensures forall i :: 0 <= i < |requests| ==>
              LookupAll(CacheKey, Builder(displays), map[], requests)[i] == Built(displays, requests[i])
  {
    KeyTellsWord(displays);
    CacheIsInvisible(CacheKey, Builder(displays), Separable, requests);
  }
}
