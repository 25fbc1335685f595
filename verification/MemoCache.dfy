/** A cache of built words under a string key, and when it cannot be noticed. */
module MemoCache {

  /** A built word, or the reason there is none. */
  datatype Outcome<+E> = Word(bits: string) | Refused(error: E)

  /** One lookup: the new cache and what the caller gets. Only words are kept. */
  function Lookup<Q, E>(key: Q -> string, build: Q -> Outcome<E>, cache: map<string, string>, q: Q): (r: (map<string, string>, Outcome<E>))
  {
    if key(q) in cache then (cache, Word(cache[key(q)]))
    else
      var built := build(q);
      if built.Word? then (cache[key(q) := built.bits], built) else (cache, built)
  }

  /** On the domain, the key of a request that has a word tells what is built. */
  ghost predicate KeyTells<Q(!new), E>(key: Q -> string, build: Q -> Outcome<E>, domain: Q -> bool) {
    forall w, q :: domain(w) && domain(q) && build(w).Word? && key(w) == key(q) ==> build(w) == build(q)
  }

  predicate Explains<Q, E(==)>(key: Q -> string, build: Q -> Outcome<E>, domain: Q -> bool, cache: map<string, string>, k: string, w: Q) {
    domain(w) && key(w) == k && k in cache && build(w) == Word(cache[k])
  }

  /** Every cached word is what some request of the domain is built as. */
  ghost predicate Faithful<Q(!new), E>(key: Q -> string, build: Q -> Outcome<E>, domain: Q -> bool, cache: map<string, string>) {
    forall k :: k in cache ==> exists w :: Explains(key, build, domain, cache, k, w)
  }

  /** From a faithful cache a request of the domain gets what building it gives, and leaves the cache faithful. */
  lemma LookupIsFaithful<Q(!new), E>(key: Q -> string, build: Q -> Outcome<E>, domain: Q -> bool, cache: map<string, string>, q: Q)
    requires KeyTells(key, build, domain) && Faithful(key, build, domain, cache) && domain(q)
    ensures Lookup(key, build, cache, q).1 == build(q)
    ensures Faithful(key, build, domain, Lookup(key, build, cache, q).0)
  {
    var cache' := Lookup(key, build, cache, q).0;
    if key(q) in cache {
      var w :| Explains(key, build, domain, cache, key(q), w);
    } else if build(q).Word? {
      assert Explains(key, build, domain, cache', key(q), q);
      forall k | k in cache' ensures exists w :: Explains(key, build, domain, cache', k, w) {
        if k != key(q) {
          var w :| Explains(key, build, domain, cache, k, w);
          assert Explains(key, build, domain, cache', k, w);
        }
      }
    }
  }

  function LookupAll<Q, E>(key: Q -> string, build: Q -> Outcome<E>, cache: map<string, string>, requests: seq<Q>): (outcomes: seq<Outcome<E>>)
    ensures |outcomes| == |requests|
    decreases |requests|
  {
    if requests == [] then []
    else
      var (next, first) := Lookup(key, build, cache, requests[0]);
      [first] + LookupAll(key, build, next, requests[1..])
  }

  lemma {:induction false} FaithfulRun<Q(!new), E>(key: Q -> string, build: Q -> Outcome<E>, domain: Q -> bool,
                                                   cache: map<string, string>, requests: seq<Q>)
    requires KeyTells(key, build, domain) && Faithful(key, build, domain, cache)
    requires forall i :: 0 <= i < |requests| ==> domain(requests[i])
    ensures forall i :: 0 <= i < |requests| ==> LookupAll(key, build, cache, requests)[i] == build(requests[i])
    decreases |requests|
  {
    hide Faithful, KeyTells, Lookup;
    if requests != [] {
      var rest, next := requests[1..], Lookup(key, build, cache, requests[0]).0;
      LookupIsFaithful(key, build, domain, cache, requests[0]);
      assert forall i :: 0 <= i < |rest| ==> rest[i] == requests[i + 1];
      FaithfulRun(key, build, domain, next, rest);
      forall i | 0 <= i < |requests| ensures LookupAll(key, build, cache, requests)[i] == build(requests[i]) {
        if i > 0 {
          assert rest[i - 1] == requests[i];
        }
      }
    }
  }

  /** Started empty, the cache is never noticed: whatever was looked up before, every request of the domain gets
      what building it anew gives, refusals included. */
  lemma CacheIsInvisible<Q(!new), E>(key: Q -> string, build: Q -> Outcome<E>, domain: Q -> bool, requests: seq<Q>)
    requires KeyTells(key, build, domain)
    requires forall i :: 0 <= i < |requests| ==> domain(requests[i])
    ensures forall i :: 0 <= i < |requests| ==> LookupAll(key, build, map[], requests)[i] == build(requests[i])
  {
    FaithfulRun(key, build, domain, map[], requests);
  }

  /** The cache left by a history. */
  function CacheAfter<Q, E>(key: Q -> string, build: Q -> Outcome<E>, requests: seq<Q>): (cache: map<string, string>)
  {
    if requests == [] then map[]
    else Lookup(key, build, CacheAfter(key, build, requests[..|requests| - 1]), requests[|requests| - 1]).0
  }

  /** Each outcome of a history is one lookup in the cache left by what came before. */
  lemma OutcomeAt<Q, E>(key: Q -> string, build: Q -> Outcome<E>, requests: seq<Q>, i: nat)
    requires i < |requests|
    ensures LookupAll(key, build, map[], requests)[i] == Lookup(key, build, CacheAfter(key, build, requests[..i]), requests[i]).1
  {
    assert requests == [] + requests;
    OutcomeFrom(key, build, [], requests, i);
    assert [] + requests[..i] == requests[..i];
  }

  lemma {:induction false} OutcomeFrom<Q, E>(key: Q -> string, build: Q -> Outcome<E>, past: seq<Q>, requests: seq<Q>, i: nat)
    requires i < |requests|
    ensures LookupAll(key, build, CacheAfter(key, build, past), requests)[i]
         == Lookup(key, build, CacheAfter(key, build, past + requests[..i]), requests[i]).1
    decreases |requests|
  {
    hide Lookup;
    if i == 0 {
      assert past + requests[..0] == past;
    } else {
      var now := past + [requests[0]];
      assert now[..|now| - 1] == past;
      OutcomeFrom(key, build, now, requests[1..], i - 1);
      assert now + requests[1..][..i - 1] == past + requests[..i];
    }
  }

  /** The first request of its key that has a word leaves that word for good. */
  lemma {:induction false} FirstStays<Q, E>(key: Q -> string, build: Q -> Outcome<E>, requests: seq<Q>, k: nat, i: nat)
    requires k < i <= |requests| && build(requests[k]).Word?
    requires forall j :: 0 <= j < k && key(requests[j]) == key(requests[k]) ==> build(requests[j]).Refused?
    ensures var cache := CacheAfter(key, build, requests[..i]);
            key(requests[k]) in cache && cache[key(requests[k])] == build(requests[k]).bits
    decreases i
  {
    var front := requests[..i][..i - 1];
    assert front == requests[..i - 1];
    if i == k + 1 {
      NotYetCached(key, build, requests, k, k);
    } else {
      FirstStays(key, build, requests, k, i - 1);
    }
  }

  lemma {:induction false} NotYetCached<Q, E>(key: Q -> string, build: Q -> Outcome<E>, requests: seq<Q>, k: nat, i: nat)
    requires i <= k < |requests|
    requires forall j :: 0 <= j < k && key(requests[j]) == key(requests[k]) ==> build(requests[j]).Refused?
    ensures key(requests[k]) !in CacheAfter(key, build, requests[..i])
    decreases i
  {
    if i > 0 {
      assert requests[..i][..i - 1] == requests[..i - 1];
      NotYetCached(key, build, requests, k, i - 1);
    }
  }

  /** A cached word was left by an earlier request of that key. */
  lemma {:induction false} CachedBy<Q, E>(key: Q -> string, build: Q -> Outcome<E>, requests: seq<Q>, i: nat, k: string) returns (j: nat)
    requires i <= |requests| && k in CacheAfter(key, build, requests[..i])
    ensures j < i && key(requests[j]) == k && build(requests[j]) == Word(CacheAfter(key, build, requests[..i])[k])
    decreases i
  {
    assert i > 0;
    assert requests[..i][..i - 1] == requests[..i - 1];
    if k in CacheAfter(key, build, requests[..i - 1]) {
      j := CachedBy(key, build, requests, i - 1, k);
    } else {
      j := i - 1;
    }
  }
}
