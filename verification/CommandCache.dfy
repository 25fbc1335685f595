/** The registry of command words: words are built once and then served from a cache under a joined string key. */
module CommandCache {
  import opened Binary
  import opened MemoCache
  import opened Text
  import opened Wrappers

  datatype Error = SystemNotFound | SubaddressNotFound | InvalidMessageType

  datatype Request = Request(
    systemId: string,
    direction: nat,
    subaddressName: string,
    messageType: string,
    dataType: Option<string>)

  /** The address book's two lookups, fixed while the program runs. */
  datatype Book = Book(systems: string -> Option<nat>, subaddresses: string -> Option<nat>)

  const MESSAGE_TYPES: set<string> := {"status", "mode", "data", "show"}

  /** How an f-string prints the data type. */
  function Printed(dataType: Option<string>): (s: string) {
    match dataType
    case Some(name) => name
    case None => "None"
  }

  function CacheKey(q: Request): (key: string) {
    q.systemId + "_" + Show(q.direction) + "_" + q.subaddressName + "_" + q.messageType + "_" + Printed(q.dataType)
  }

  function WordCount(messageType: string, dataType: Option<string>): (count: Option<nat>) {
    if messageType == "status" then Some(1)
    else if messageType == "mode" then Some(2)
    else if messageType == "data" then
      if dataType == Some("echo_top") then Some(4)
      else if dataType == Some("shear") then Some(4)
      else if dataType == Some("turbulence") then Some(5)
      else if dataType == Some("vil") then Some(2)
      else if dataType == Some("precipitation") then Some(2)
      else Some(3)
    else if messageType == "show" then Some(1)
    else None
  }

  /** The bits of a command word. */
  function WordOf(rtAddress: nat, direction: nat, subaddress: nat, count: nat): (w: string) {
    Format(rtAddress, 5) + Format(direction, 1) + Format(subaddress, 5) + Format(count, 5)
  }

  /** What a registration is for: the word built straight from the address book. */
  function Built(book: Book, q: Request): (r: Outcome<Error>) {
    var system, subaddress := book.systems(q.systemId), book.subaddresses(q.subaddressName);
    if system.None? then Refused(SystemNotFound)
    else if subaddress.None? then Refused(SubaddressNotFound)
    else
      var count := WordCount(q.messageType, q.dataType);
      if count.None? then Refused(InvalidMessageType)
      else Word(WordOf(system.value, q.direction, subaddress.value, count.value))
  }

  /** How the address book builds requests. */
  function Builder(book: Book): (build: Request -> Outcome<Error>) {
    q => Built(book, q)
  }

  /** One registration against a cache: the new cache and what the caller gets. */
  function Register(book: Book, cache: map<string, string>, q: Request): (r: (map<string, string>, Outcome<Error>)) {
    Lookup(CacheKey, Builder(book), cache, q)
  }

  class CommandWords {
    const book: Book
    var cache: map<string, string>

    constructor (book: Book)
      ensures this.book == book && cache == map[]
    {
      this.book := book;
      cache := map[];
    }

    method RegisterCommandWord(systemId: string, direction: nat, subaddressName: string, messageType: string, dataType: Option<string>)
      returns (r: Outcome<Error>)
      modifies this`cache
      ensures (cache, r) == Register(book, old(cache), Request(systemId, direction, subaddressName, messageType, dataType))
    {
      var key := systemId + "_" + Show(direction) + "_" + subaddressName + "_" + messageType + "_" + Printed(dataType);
      if key in cache {
        return Word(cache[key]);
      }
      var system := book.systems(systemId);
      if system.None? {
        return Refused(SystemNotFound);
      }
      var subaddress := book.subaddresses(subaddressName);
      if subaddress.None? {
        return Refused(SubaddressNotFound);
      }
      var wordCount: nat;
      if messageType == "status" {
        wordCount := 1;
      } else if messageType == "mode" {
        wordCount := 2;
      } else if messageType == "data" {
        if dataType == Some("echo_top") || dataType == Some("shear") {
          wordCount := 4;
        } else if dataType == Some("turbulence") {
          wordCount := 5;
        } else if dataType == Some("vil") || dataType == Some("precipitation") {
          wordCount := 2;
        } else {
          wordCount := 3;
        }
      } else if messageType == "show" {
        wordCount := 1;
      } else {
        return Refused(InvalidMessageType);
      }
      var word := Format(system.value, 5) + Format(direction, 1) + Format(subaddress.value, 5) + Format(wordCount, 5);
      cache := cache[key := word];
      return Word(word);
    }
  }

  /* ---- The domain on which the joined key tells requests apart ---- */

  /** No part names a message type. */
  predicate NoType(parts: seq<string>) {
    forall i :: 0 <= i < |parts| ==> parts[i] !in MESSAGE_TYPES
  }

  /** The system has no underscore, and behind the message type no part of the key could be taken for one.
      A request whose own message type is unknown has no such part at all behind the direction. */
  predicate Separable(q: Request) {
    && '_' !in q.systemId
    && NoType(Split(Printed(q.dataType), '_'))
    && (q.messageType in MESSAGE_TYPES || NoType(Split(q.subaddressName, '_') + Split(q.messageType, '_')))
  }

  lemma MessageTypesAreWhole(messageType: string)
    requires messageType in MESSAGE_TYPES
    ensures Split(messageType, '_') == [messageType]
  {
    hide Split;
    var status, mode, data, show := "status", "mode", "data", "show";
    assert '_' !in status;
    assert '_' !in mode;
    assert '_' !in data;
    assert '_' !in show;
    assert messageType == status || messageType == mode || messageType == data || messageType == show;
    SplitNothing(messageType, '_');
  }

  /** What the key splits into. */
  lemma KeyParts(q: Request)
    requires '_' !in q.systemId
    ensures Split(CacheKey(q), '_') ==
              [q.systemId, Show(q.direction)]
              + (Split(q.subaddressName, '_') + Split(q.messageType, '_') + Split(Printed(q.dataType), '_'))
  {
    hide Split, Show, Printed;
    var sub, mt, dt, dir := q.subaddressName, q.messageType, Printed(q.dataType), Show(q.direction);
    SplitAround(mt, dt, '_');
    SplitAround(sub, mt + "_" + dt, '_');
    SplitAround(dir, sub + "_" + (mt + "_" + dt), '_');
    SplitAround(q.systemId, dir + "_" + (sub + "_" + (mt + "_" + dt)), '_');
    SplitNothing(q.systemId, '_');
    ShowHasNoUnderscore(q.direction);
    assert CacheKey(q) == q.systemId + "_" + (dir + "_" + (sub + "_" + (mt + "_" + dt)));
  }

  /** A list is split in one way only at its last message type. */
  lemma LastTypeIsUnique(a: seq<string>, m: string, b: seq<string>, a': seq<string>, m': string, b': seq<string>)
    requires m in MESSAGE_TYPES && m' in MESSAGE_TYPES && NoType(b) && NoType(b')
    requires a + [m] + b == a' + [m'] + b'
    ensures a == a' && m == m' && b == b'
  {
    hide MESSAGE_TYPES;
    var whole := a + [m] + b;
    assert whole[|a|] == m && whole[|a'|] == m';
    if |a| < |a'| {
      assert false;
    } else if |a'| < |a| {
      assert false;
    } else {
      assert a == whole[..|a|] == a';
      assert b == whole[|a| + 1..] == b';
    }
  }

  lemma TypeShows(a: seq<string>, m: string, b: seq<string>, parts: seq<string>)
    requires m in MESSAGE_TYPES && NoType(parts)
    ensures a + [m] + b != parts
  {
    hide MESSAGE_TYPES;
    assert (a + [m] + b)[|a|] == m;
  }

  lemma SameTail(p: string, n: nat, x: seq<string>, p': string, n': nat, x': seq<string>)
    requires [p, Show(n)] + x == [p', Show(n')] + x'
    ensures p == p' && n == n' && x == x'
  {
    hide Show;
    var l, r := [p, Show(n)] + x, [p', Show(n')] + x';
    assert l[0] == p && r[0] == p' && l[1] == Show(n) && r[1] == Show(n');
    assert x == l[2..] && x' == r[2..];
    ShowInjective(n, n');
  }

  /** Two separable requests share a key exactly when they agree on everything but how an absent data type is
      written, provided one of them is for a known message type. */
  lemma SameKeyIff(w: Request, q: Request)
    requires Separable(w) && Separable(q) && w.messageType in MESSAGE_TYPES
    ensures CacheKey(w) == CacheKey(q) <==> w.(dataType := None) == q.(dataType := None) && Printed(w.dataType) == Printed(q.dataType)
  {
    hide Split, Show, Printed, MESSAGE_TYPES, CacheKey;
    if CacheKey(w) == CacheKey(q) {
      KeyParts(w);
      KeyParts(q);
      var sw, mw, dw := Split(w.subaddressName, '_'), Split(w.messageType, '_'), Split(Printed(w.dataType), '_');
      var sq, mq, dq := Split(q.subaddressName, '_'), Split(q.messageType, '_'), Split(Printed(q.dataType), '_');
      SameTail(w.systemId, w.direction, sw + mw + dw, q.systemId, q.direction, sq + mq + dq);
      MessageTypesAreWhole(w.messageType);
      if q.messageType in MESSAGE_TYPES {
        MessageTypesAreWhole(q.messageType);
        LastTypeIsUnique(sw, w.messageType, dw, sq, q.messageType, dq);
        SplitInjective(w.subaddressName, q.subaddressName, '_');
        SplitInjective(Printed(w.dataType), Printed(q.dataType), '_');
      } else {
        TypeShows(sw, w.messageType, dw, sq + mq + dq);
        assert false;
      }
    } else if w.(dataType := None) == q.(dataType := None) && Printed(w.dataType) == Printed(q.dataType) {
      SameKeyWhenAlike(w, q);
      assert false;
    }
  }

  lemma SameKeyWhenAlike(w: Request, q: Request)
    requires w.(dataType := None) == q.(dataType := None) && Printed(w.dataType) == Printed(q.dataType)
    ensures CacheKey(w) == CacheKey(q)
  {
    assert w.systemId == w.(dataType := None).systemId == q.systemId;
    assert w.direction == w.(dataType := None).direction == q.direction;
    assert w.subaddressName == w.(dataType := None).subaddressName == q.subaddressName;
    assert w.messageType == w.(dataType := None).messageType == q.messageType;
  }

  /** A data type named "None" is built like an absent one. */
  lemma BuiltAlike(book: Book, w: Request, q: Request)
    requires w.(dataType := None) == q.(dataType := None) && Printed(w.dataType) == Printed(q.dataType)
    ensures Built(book, w) == Built(book, q)
  {
    assert w.systemId == w.(dataType := None).systemId == q.systemId;
    assert w.direction == w.(dataType := None).direction == q.direction;
    assert w.subaddressName == w.(dataType := None).subaddressName == q.subaddressName;
    assert w.messageType == w.(dataType := None).messageType == q.messageType;
    assert WordCount(w.messageType, w.dataType) == WordCount(q.messageType, q.dataType);
  }

  /* ---- Whole histories of registrations ---- */

  lemma BuiltIsKnown(book: Book, q: Request)
    requires Built(book, q).Word?
    ensures q.messageType in MESSAGE_TYPES
  {
  }

  /** Of separable requests, the key of one that has a word tells what the address book builds. */
  lemma KeyTellsWord(book: Book)
    ensures KeyTells(CacheKey, Builder(book), Separable)
  {
    hide Built, Separable, CacheKey, Printed, MESSAGE_TYPES;
    forall w, q | Separable(w) && Separable(q) && Built(book, w).Word? && CacheKey(w) == CacheKey(q)
      ensures Built(book, w) == Built(book, q)
    {
      BuiltIsKnown(book, w);
      SameKeyIff(w, q);
      BuiltAlike(book, w, q);
    }
  }

  /** Started empty, the cache is never noticed: whatever was registered before, every separable request
      gets exactly what the address book alone gives it, errors included. */
  lemma RegistryIsInvisible(book: Book, requests: seq<Request>)
    requires forall i :: 0 <= i < |requests| ==> Separable(requests[i])
    ensures forall i :: 0 <= i < |requests| ==> LookupAll(CacheKey, Builder(book), map[], requests)[i] == Built(book, requests[i])
  {
    KeyTellsWord(book);
    CacheIsInvisible(CacheKey, Builder(book), Separable, requests);
  }

  /* ---- Exactly which histories the cache serves rightly ---- */

  /** Two requests that a word cannot tell apart. */
  predicate SameParts(w: Request, q: Request) {
    && w.systemId == q.systemId && w.direction == q.direction && w.subaddressName == q.subaddressName
    && WordCount(w.messageType, w.dataType) == WordCount(q.messageType, q.dataType)
  }

  /** A later request q is not given the word of an earlier w in place of its own. */
  predicate Agrees(w: Request, q: Request) {
    WordCount(w.messageType, w.dataType).Some? && CacheKey(w) == CacheKey(q) ==> SameParts(w, q)
  }

  lemma SamePartsBuiltAlike(book: Book, w: Request, q: Request)
    requires SameParts(w, q)
    ensures Built(book, w) == Built(book, q)
  {
  }

  lemma CountFits(messageType: string, dataType: Option<string>)
    ensures var count := WordCount(messageType, dataType); count.Some? ==> 1 <= count.value <= 5
  {
  }

  lemma Small5(n: nat)
    requires n <= 31
    ensures |Format(n, 5)| == 5
  {
    FormatWidth(n, 5);
    assert Pow2(5) == 32 by {
      assert Pow2(1) == 2 && Pow2(2) == 4 && Pow2(3) == 8 && Pow2(4) == 16;
    }
  }

  lemma FormatTells(n: nat, m: nat, width: nat)
    requires Format(n, width) == Format(m, width)
    ensures n == m
  {
    ParseFormat(n, width);
    ParseFormat(m, width);
  }

  /** A word determines the four numbers it was made from. */
  lemma WordTells(a: nat, d: nat, b: nat, c: nat, a': nat, d': nat, b': nat, c': nat)
    requires a <= 31 && b <= 31 && c <= 31 && a' <= 31 && b' <= 31 && c' <= 31
    requires WordOf(a, d, b, c) == WordOf(a', d', b', c')
    ensures a == a' && d == d' && b == b' && c == c'
  {
    hide Format, AllBits, WordOf, Stretches;
    StretchesOf(a, d, b, c);
    StretchesOf(a', d', b', c');
    FormatTells(a, a', 5);
    FormatTells(d, d', 1);
    FormatTells(b, b', 5);
    FormatTells(c, c', 5);
  }

  /** The stretches of a word, counted from both ends. */
  function Stretches(w: string): (parts: (string, string, string, string)) {
    if |w| < 15 then ("", "", "", "") else (w[..5], w[5..|w| - 10], w[|w| - 10..|w| - 5], w[|w| - 5..])
  }

  lemma StretchesOf(a: nat, d: nat, b: nat, c: nat)
    requires a <= 31 && b <= 31 && c <= 31
    ensures Stretches(WordOf(a, d, b, c)) == (Format(a, 5), Format(d, 1), Format(b, 5), Format(c, 5))
  {
    hide Format, AllBits, IsBit;
    Small5(a);
    Small5(b);
    Small5(c);
    FourParts(Format(a, 5), Format(d, 1), Format(b, 5), Format(c, 5));
  }

  lemma FourParts(a: string, d: string, b: string, c: string)
    requires |a| == 5 && |b| == 5 && |c| == 5
    ensures Stretches(a + d + b + c) == (a, d, b, c)
  {
    var w := a + d + b + c;
    assert w[..5] == a && w[5..|w| - 10] == d && w[|w| - 10..|w| - 5] == b && w[|w| - 5..] == c;
  }

  /** Where the parts of a word stand: the system's address in its first five bits, then the direction, the subaddress
      in the next five and the word count in the last five. */
  lemma BuiltReads(book: Book, q: Request)
    requires q.direction <= 1
    requires book.systems(q.systemId).Some? && book.systems(q.systemId).value <= 31
    requires book.subaddresses(q.subaddressName).Some? && book.subaddresses(q.subaddressName).value <= 31
    requires q.messageType in MESSAGE_TYPES
    ensures var r := Built(book, q);
            && r.Word? && |r.bits| == 16 && AllBits(r.bits)
            && Parse(r.bits[..5]) == book.systems(q.systemId).value
            && Parse(r.bits[5..6]) == q.direction
            && Parse(r.bits[6..11]) == book.subaddresses(q.subaddressName).value
            && WordCount(q.messageType, q.dataType) == Some(Parse(r.bits[11..]))
  {
    CountFits(q.messageType, q.dataType);
    assert WordCount(q.messageType, q.dataType).Some?;
    hide WordCount, MESSAGE_TYPES;
    WordReads(book.systems(q.systemId).value, q.direction, book.subaddresses(q.subaddressName).value,
              WordCount(q.messageType, q.dataType).value);
  }

  /** Which requests are refused, and why: the system is looked up first, then the subaddress, then the type. */
  lemma BuiltRefusedIff(book: Book, q: Request)
    ensures var system, sub, r := book.systems(q.systemId).Some?, book.subaddresses(q.subaddressName).Some?, Built(book, q);
            && (r == Refused(SystemNotFound) <==> !system)
            && (r == Refused(SubaddressNotFound) <==> system && !sub)
            && (r == Refused(InvalidMessageType) <==> system && sub && q.messageType !in MESSAGE_TYPES)
  {
  }

  lemma WordReads(a: nat, d: nat, b: nat, c: nat)
    requires a <= 31 && d <= 1 && b <= 31 && c <= 31
    ensures var w := WordOf(a, d, b, c);
            && |w| == 16 && AllBits(w)
            && Parse(w[..5]) == a && Parse(w[5..6]) == d && Parse(w[6..11]) == b && Parse(w[11..]) == c
  {
    hide Format, Parse;
    Small5(a);
    Small5(b);
    Small5(c);
    FormatWidth(d, 1);
    StretchesOf(a, d, b, c);
    ParseFormat(a, 5);
    ParseFormat(d, 1);
    ParseFormat(b, 5);
    ParseFormat(c, 5);
  }

  /** A book that knows every name, and gives the names of one request other addresses than all the rest. */
  function Witness(w: Request): (book: Book) {
    Book(name => if name == w.systemId then Some(1) else Some(2), name => if name == w.subaddressName then Some(1) else Some(2))
  }

  lemma WitnessTells(w: Request, q: Request)
    requires WordCount(w.messageType, w.dataType).Some?
    ensures Built(Witness(w), w).Word?
    ensures Built(Witness(w), w) == Built(Witness(w), q) ==> SameParts(w, q)
  {
    CountFits(w.messageType, w.dataType);
    CountFits(q.messageType, q.dataType);
    if Built(Witness(w), w) == Built(Witness(w), q) {
      hide WordOf, WordCount;
      WordTells(1, w.direction, 1, WordCount(w.messageType, w.dataType).value,
                if q.systemId == w.systemId then 1 else 2, q.direction,
                if q.subaddressName == w.subaddressName then 1 else 2, WordCount(q.messageType, q.dataType).value);
    }
  }

  /** Every request of the history gets what this address book alone gives it. */
  ghost predicate Served(book: Book, requests: seq<Request>) {
    forall i :: 0 <= i < |requests| ==> LookupAll(CacheKey, Builder(book), map[], requests)[i] == Built(book, requests[i])
  }

  lemma AgreeingIsServed(book: Book, requests: seq<Request>)
    requires forall i, j :: 0 <= i < j < |requests| ==> Agrees(requests[i], requests[j])
    ensures Served(book, requests)
  {
    hide CacheKey, SameParts, LookupAll;
    forall j | 0 <= j < |requests| ensures LookupAll(CacheKey, Builder(book), map[], requests)[j] == Built(book, requests[j]) {
      OutcomeAt(CacheKey, Builder(book), requests, j);
      if CacheKey(requests[j]) in CacheAfter(CacheKey, Builder(book), requests[..j]) {
        var i := CachedBy(CacheKey, Builder(book), requests, j, CacheKey(requests[j]));
        assert Agrees(requests[i], requests[j]);
        SamePartsBuiltAlike(book, requests[i], requests[j]);
      }
    }
  }

  /** The first request with a word under its key. */
  lemma {:induction false} FirstOfKey(requests: seq<Request>, i: nat) returns (k: nat)
    requires i < |requests| && WordCount(requests[i].messageType, requests[i].dataType).Some?
    ensures k <= i && CacheKey(requests[k]) == CacheKey(requests[i]) && WordCount(requests[k].messageType, requests[k].dataType).Some?
    ensures forall j :: 0 <= j < k && CacheKey(requests[j]) == CacheKey(requests[i]) ==> WordCount(requests[j].messageType, requests[j].dataType).None?
  {
    hide CacheKey, WordCount;
    if j :| 0 <= j < i && CacheKey(requests[j]) == CacheKey(requests[i]) && WordCount(requests[j].messageType, requests[j].dataType).Some? {
      k := FirstOfKey(requests, j);
    } else {
      k := i;
    }
  }

  /** A request that does not agree with the first of its key gets that one's word. */
  lemma FirstIsServed(book: Book, requests: seq<Request>, k: nat, m: nat)
    requires k < m < |requests| && CacheKey(requests[k]) == CacheKey(requests[m]) && Built(book, requests[k]).Word?
    requires forall j :: 0 <= j < k && CacheKey(requests[j]) == CacheKey(requests[k]) ==> Built(book, requests[j]).Refused?
    ensures LookupAll(CacheKey, Builder(book), map[], requests)[m] == Built(book, requests[k])
  {
    hide CacheKey, LookupAll, Built;
    OutcomeAt(CacheKey, Builder(book), requests, m);
    FirstStays(CacheKey, Builder(book), requests, k, m);
  }

  lemma ClashIsNotServed(requests: seq<Request>, i: nat, j: nat) returns (book: Book)
    requires i < j < |requests| && !Agrees(requests[i], requests[j])
    ensures !Served(book, requests)
  {
    hide CacheKey, WordCount, LookupAll, Built;
    var k := FirstOfKey(requests, i);
    var m := if SameParts(requests[k], requests[i]) then j else i;
    book := Witness(requests[k]);
    WitnessTells(requests[k], requests[m]);
    UnknownIsRefused(requests, k);
    assert k < m && !SameParts(requests[k], requests[m]);
    FirstIsServed(book, requests, k, m);
  }

  lemma UnknownIsRefused(requests: seq<Request>, k: nat)
    requires k < |requests|
    ensures forall j :: 0 <= j < |requests| && WordCount(requests[j].messageType, requests[j].dataType).None? ==>
              Built(Witness(requests[k]), requests[j]).Refused?
  {
    hide WordCount;
  }

  /** Exactly which histories are served rightly whatever the address book: those in which no two requests share a
      key, the earlier for a known message type, unless they also share system, direction, subaddress and word count. */
  lemma ServedIff(requests: seq<Request>)
    ensures (forall book :: Served(book, requests)) <==> forall i, j :: 0 <= i < j < |requests| ==> Agrees(requests[i], requests[j])
  {
    hide Agrees, Served;
    if forall i, j :: 0 <= i < j < |requests| ==> Agrees(requests[i], requests[j]) {
      forall book ensures Served(book, requests) {
        AgreeingIsServed(book, requests);
      }
    } else {
      var i, j :| 0 <= i < j < |requests| && !Agrees(requests[i], requests[j]);
      var book := ClashIsNotServed(requests, i, j);
    }
  }

  /** An instance that fails: an underscore in a system name moves the direction into it. */
  lemma UnderscoreCollides(book: Book, first: Request, second: Request)
    requires first == Request("radar_0", 1, "x", "mode", None) && second == Request("radar", 0, "1_x", "mode", None)
    requires book.systems("radar") == Some(9) && book.systems("radar_0") == Some(3)
    requires book.subaddresses("x") == Some(1) && book.subaddresses("1_x") == Some(2)
    ensures !Agrees(first, second)
    ensures LookupAll(CacheKey, Builder(book), map[], [first, second])[1] == Built(book, first) != Built(book, second)
  {
    Collide(first, second);
    if Built(book, first) == Built(book, second) {
      hide WordOf;
      WordTells(3, 1, 1, 2, 9, 0, 2, 2);
    }
    hide CacheKey, LookupAll, WordOf;
    FirstIsServed(book, [first, second], 0, 1);
  }

  lemma Collide(first: Request, second: Request)
    requires first == Request("radar_0", 1, "x", "mode", None) && second == Request("radar", 0, "1_x", "mode", None)
    ensures CacheKey(first) == CacheKey(second)
  {
    assert Show(0) == "0" && Show(1) == "1";
    hide Show;
    assert CacheKey(first) == "radar_0" + "_1_x_mode_None" == CacheKey(second);
  }
}
