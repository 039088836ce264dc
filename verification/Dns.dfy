/**
 The DNS resolver: a cache with a queue of expiry times, and one lookup at a time for each key, shared
 by all who ask meanwhile. Threads meet only under the lock, so each locked region is one step; the
 lookups themselves give any answer, or none.
 */
module Dns {
  import opened Collections

  /** A host, service and family together; numbers stand for the key strings, as for callers and addresses. */
  type Key = nat

  datatype Entry = Entry(addresses: seq<int>, expiry: int)

  /** An element of the expiry queue. */
  datatype Due = Due(expiry: int, key: Key)

  /** What a promise is set to: addresses, or a failure. */
  datatype Answer = Addresses(addresses: seq<int>) | Failure

  /** Every cache entry is due in the queue. */
  ghost predicate HeapOk(cache: map<Key, Entry>, queue: multiset<Due>) {
    forall k | k in cache :: Due(cache[k].expiry, k) in queue
  }

  /** Who waits for a key, in the order in which they asked. */
  function Waiting(pending: map<Key, seq<nat>>, key: Key): seq<nat> {
    if key in pending then pending[key] else []
  }

  /** Each key with waiters has exactly one lookup outstanding, and no other key has one. */
  ghost predicate SingleFlight(lookups: multiset<Key>, pending: map<Key, seq<nat>>) {
    lookups == multiset(pending.Keys)
  }

  /** Every waiter is in one place: on the list of its key, owed an answer, or answered. */
  ghost predicate WaitersOk(keyOf: map<nat, Key>, pending: map<Key, seq<nat>>, owed: map<nat, Answer>,
                            settled: map<nat, Answer>)
  {
    && (forall k | k in pending :: NoDuplicates(pending[k]))
    && (forall k, w | k in pending && w in pending[k] :: w in keyOf && keyOf[w] == k && w !in owed && w !in settled)
    && (forall w | w in keyOf :: (keyOf[w] in pending && w in pending[keyOf[w]]) || w in owed || w in settled)
    && owed.Keys !! settled.Keys
    && owed.Keys + settled.Keys <= keyOf.Keys
  }

  /** Addresses in the cache and in answers were found by a lookup of that very key. */
  ghost predicate FoundOk(found: set<(Key, seq<int>)>, keyOf: map<nat, Key>, cache: map<Key, Entry>,
                          owed: map<nat, Answer>, settled: map<nat, Answer>)
  {
    && (forall k | k in cache :: (k, cache[k].addresses) in found)
    && (forall w | w in owed && w in keyOf && owed[w].Addresses? :: (keyOf[w], owed[w].addresses) in found)
    && (forall w | w in settled && w in keyOf && settled[w].Addresses? :: (keyOf[w], settled[w].addresses) in found)
  }

  // ------------------------------------------------------------ how the parts change

  lemma AnsweredAtOnce(keyOf: map<nat, Key>, pending: map<Key, seq<nat>>, owed: map<nat, Answer>,
                       settled: map<nat, Answer>, w: nat, key: Key, a: Answer)
    requires WaitersOk(keyOf, pending, owed, settled) && w !in keyOf
    ensures WaitersOk(keyOf[w := key], pending, owed, settled[w := a])
  {
  }

  lemma Joined(keyOf: map<nat, Key>, pending: map<Key, seq<nat>>, owed: map<nat, Answer>, settled: map<nat, Answer>,
               w: nat, key: Key)
    requires WaitersOk(keyOf, pending, owed, settled) && w !in keyOf
    ensures WaitersOk(keyOf[w := key], pending[key := Waiting(pending, key) + [w]],
                      owed, settled)
  {
  }

  lemma NewWaiterFound(found: set<(Key, seq<int>)>, keyOf: map<nat, Key>, pending: map<Key, seq<nat>>,
                       cache: map<Key, Entry>, owed: map<nat, Answer>, settled: map<nat, Answer>, w: nat, key: Key)
    requires WaitersOk(keyOf, pending, owed, settled) && FoundOk(found, keyOf, cache, owed, settled) && w !in keyOf
    ensures w !in owed && w !in settled && FoundOk(found, keyOf[w := key], cache, owed, settled)
    ensures key in cache ==> FoundOk(found, keyOf[w := key], cache, owed, settled[w := Addresses(cache[key].addresses)])
  {
  }

  /** The waiters of a key, each with its answer. */
  function Answers(waiters: seq<nat>, a: Answer): map<nat, Answer> {
    map w | w in waiters :: a
  }

  /** The waiters named are owed an answer more, and everyone else what they were. */
  ghost predicate OweMore(owed: map<nat, Answer>, owed': map<nat, Answer>, waiters: seq<nat>, a: Answer) {
    && (forall w :: w in owed' <==> w in owed || w in waiters)
    && (forall w | w in waiters :: w in owed' && owed'[w] == a)
    && (forall w | w in owed && w !in waiters :: w in owed' && owed'[w] == owed[w])
    && (forall w | w in waiters :: w !in owed)
  }

  lemma ListTaken(keyOf: map<nat, Key>, pending: map<Key, seq<nat>>, owed: map<nat, Answer>, settled: map<nat, Answer>,
                  key: Key, a: Answer)
    requires WaitersOk(keyOf, pending, owed, settled) && key in pending
    ensures WaitersOk(keyOf, pending - {key}, owed + Answers(pending[key], a), settled)
    ensures OweMore(owed, owed + Answers(pending[key], a), pending[key], a)
  {
  }

  lemma OneSettled(keyOf: map<nat, Key>, pending: map<Key, seq<nat>>, owed: map<nat, Answer>, settled: map<nat, Answer>,
                   w: nat)
    requires WaitersOk(keyOf, pending, owed, settled) && w in owed
    ensures WaitersOk(keyOf, pending, owed - {w}, settled[w := owed[w]]) && w !in settled
  {
  }

  lemma AnswerFound(found: set<(Key, seq<int>)>, keyOf: map<nat, Key>, pending: map<Key, seq<nat>>,
                    cache: map<Key, Entry>, owed: map<nat, Answer>, settled: map<nat, Answer>, key: Key, a: Answer)
    requires WaitersOk(keyOf, pending, owed, settled) && FoundOk(found, keyOf, cache, owed, settled) && key in pending
    requires a.Addresses? ==> (key, a.addresses) in found
    ensures FoundOk(found, keyOf, cache, owed + Answers(pending[key], a), settled)
  {
  }

  lemma StoredFound(found: set<(Key, seq<int>)>, keyOf: map<nat, Key>, cache: map<Key, Entry>, owed: map<nat, Answer>,
                    settled: map<nat, Answer>, key: Key, addresses: seq<int>, expiry: int)
    requires FoundOk(found, keyOf, cache, owed, settled)
    ensures FoundOk(found + {(key, addresses)}, keyOf, cache[key := Entry(addresses, expiry)], owed, settled)
  {
  }

  lemma OneDueMore(cache: map<Key, Entry>, queue: multiset<Due>, key: Key, e: Entry)
    requires HeapOk(cache, queue)
    ensures HeapOk(cache[key := e], queue + multiset{Due(e.expiry, key)})
  {
  }

  lemma SubCacheFound(found: set<(Key, seq<int>)>, keyOf: map<nat, Key>, cache: map<Key, Entry>, less: map<Key, Entry>,
                      owed: map<nat, Answer>, settled: map<nat, Answer>)
    requires FoundOk(found, keyOf, cache, owed, settled) && less.Keys <= cache.Keys
             && forall k | k in less :: less[k] == cache[k]
    ensures FoundOk(found, keyOf, less, owed, settled)
  {
  }

  lemma PopKeeps(cache: map<Key, Entry>, queue: multiset<Due>, top: Due, now: int)
    requires top in queue && top.expiry <= now && HeapOk(cache, queue)
    requires top.key in cache ==> cache[top.key].expiry > now
    ensures HeapOk(cache, queue - multiset{top})
  {
  }

  /** The head of a priority queue: an element due no later than any other. */
  method Top(queue: multiset<Due>) returns (top: Due)
    requires |queue| > 0
    ensures top in queue && forall d | d in queue :: top.expiry <= d.expiry
  {
    var rest := queue;
    top :| top in rest;
    rest := rest - multiset{top};
    while |rest| > 0
      invariant rest <= queue && top in queue
      invariant forall d | d in queue && d !in rest :: top.expiry <= d.expiry
      decreases |rest|
    {
      var d :| d in rest;
      rest := rest - multiset{d};
      if d.expiry < top.expiry {
        top := d;
      }
    }
  }

  lemma SameLookups(lookups: multiset<Key>, pending: map<Key, seq<nat>>, key: Key, waiters: seq<nat>)
    requires SingleFlight(lookups, pending)
    ensures key in pending ==> SingleFlight(lookups, pending[key := waiters])
    ensures key !in pending ==> SingleFlight(lookups + multiset{key}, pending[key := waiters])
  {
  }

  lemma OneLookupLess(lookups: multiset<Key>, pending: map<Key, seq<nat>>, key: Key)
    requires SingleFlight(lookups, pending) && key in lookups
    ensures key in pending && SingleFlight(lookups - multiset{key}, pending - {key}) && key !in lookups - multiset{key}
  {
  }

  class Resolver {
    const ttl: nat
    var cache: map<Key, Entry>
    var pending: map<Key, seq<nat>>
    var queue: multiset<Due>
    var lookups: multiset<Key>
    var owed: map<nat, Answer>
    var settled: map<nat, Answer>
    ghost var keyOf: map<nat, Key>
    ghost var found: set<(Key, seq<int>)>

    ghost predicate Valid()
      reads this
    {
      && SingleFlight(lookups, pending)
      && HeapOk(cache, queue)
      && WaitersOk(keyOf, pending, owed, settled)
      && FoundOk(found, keyOf, cache, owed, settled)
    }

    constructor (ttl: nat)
      ensures Valid() && this.ttl == ttl && keyOf == map[]
    {
      this.ttl := ttl;
      cache, pending, queue, lookups := map[], map[], multiset{}, multiset{};
      owed, settled, keyOf, found := map[], map[], map[], {};
    }

    /** A caller asks: it is answered from a fresh cache entry, joins those waiting, or starts a lookup. */
    method Resolve(key: Key, now: int, w: nat)
      requires Valid() && w !in keyOf
      modifies this
      ensures Valid() && keyOf == old(keyOf)[w := key]
      ensures cache == old(cache) && queue == old(queue) && owed == old(owed) && found == old(found)
      ensures key in cache && now < cache[key].expiry ==>
                && settled == old(settled)[w := Addresses(cache[key].addresses)]
                && pending == old(pending) && lookups == old(lookups)
      ensures !(key in cache && now < cache[key].expiry) ==>
                && settled == old(settled)
                && pending == old(pending)[key := Waiting(old(pending), key) + [w]]
                && lookups == if key in old(pending) then old(lookups) else old(lookups) + multiset{key}
    {
      hide WaitersOk;
      hide FoundOk;
      hide HeapOk;
      hide SingleFlight;
      NewWaiterFound(found, keyOf, pending, cache, owed, settled, w, key);
      if key in cache && now < cache[key].expiry {
        AnsweredAtOnce(keyOf, pending, owed, settled, w, key, Addresses(cache[key].addresses));
        settled := settled[w := Addresses(cache[key].addresses)];
        keyOf := keyOf[w := key];
      } else {
        Wait(key, w);
      }
    }

    /** A caller joins those waiting for a key; the first one starts the lookup. */
    method Wait(key: Key, w: nat)
      requires Valid() && w !in keyOf
      modifies this`pending, this`lookups, this`keyOf
      ensures Valid() && keyOf == old(keyOf)[w := key]
      ensures pending == old(pending)[key := Waiting(old(pending), key) + [w]]
      ensures lookups == if key in old(pending) then old(lookups) else old(lookups) + multiset{key}
    {
      hide WaitersOk;
      hide FoundOk;
      hide HeapOk;
      hide SingleFlight;
      NewWaiterFound(found, keyOf, pending, cache, owed, settled, w, key);
      Joined(keyOf, pending, owed, settled, w, key);
      if key in pending {
        SameLookups(lookups, pending, key, pending[key] + [w]);
        pending := pending[key := pending[key] + [w]];
      } else {
        SameLookups(lookups, pending, key, [w]);
        assert [] + [w] == [w];
        pending := pending[key := [w]];
        lookups := lookups + multiset{key};
      }
      keyOf := keyOf[w := key];
    }

    /**
     The lookup of a key ends, with the usable addresses it found. If there are any they enter the cache and
     the queue; either way the key's waiters leave the list and are owed what was found.
     */
    method LookupEnds(key: Key, addresses: seq<int>, now: int)
      requires Valid() && key in lookups
      modifies this
      ensures Valid() && keyOf == old(keyOf) && settled == old(settled)
      ensures lookups == old(lookups) - multiset{key} && key !in lookups
      ensures key in old(pending) && pending == old(pending) - {key}
      ensures OweMore(old(owed), owed, old(pending)[key], if addresses != [] then Addresses(addresses) else Failure)
      ensures cache == if addresses != [] then old(cache)[key := Entry(addresses, now + ttl)] else old(cache)
      ensures queue == if addresses != [] then old(queue) + multiset{Due(now + ttl, key)} else old(queue)
    {
      hide Valid;
      if addresses != [] {
        Store(key, addresses, now + ttl);
        Take(key, Addresses(addresses));
      } else {
        Take(key, Failure);
      }
    }

    method Store(key: Key, addresses: seq<int>, expiry: int)
      requires Valid()
      modifies this`cache, this`queue, this`found
      ensures Valid() && cache == old(cache)[key := Entry(addresses, expiry)]
      ensures queue == old(queue) + multiset{Due(expiry, key)} && found == old(found) + {(key, addresses)}
    {
      hide WaitersOk;
      hide FoundOk;
      hide HeapOk;
      hide SingleFlight;
      OneDueMore(cache, queue, key, Entry(addresses, expiry));
      StoredFound(found, keyOf, cache, owed, settled, key, addresses, expiry);
      found := found + {(key, addresses)};
      cache := cache[key := Entry(addresses, expiry)];
      queue := queue + multiset{Due(expiry, key)};
    }

    /** The waiters of a key leave its list and are owed the answer. */
    method Take(key: Key, answer: Answer)
      requires Valid() && key in lookups && (answer.Addresses? ==> (key, answer.addresses) in found)
      modifies this`pending, this`lookups, this`owed
      ensures Valid() && lookups == old(lookups) - multiset{key} && key !in lookups
      ensures key in old(pending) && pending == old(pending) - {key}
      ensures OweMore(old(owed), owed, old(pending)[key], answer)
    {
      hide WaitersOk;
      hide FoundOk;
      hide HeapOk;
      hide SingleFlight;
      hide Answers;
      hide OweMore;
      OneLookupLess(lookups, pending, key);
      ListTaken(keyOf, pending, owed, settled, key, answer);
      AnswerFound(found, keyOf, pending, cache, owed, settled, key, answer);
      var waiters := pending[key];
      pending := pending - {key};
      lookups := lookups - multiset{key};
      owed := owed + Answers(waiters, answer);
    }

    /** One promise is set. It was not set before. */
    method SettleOne(w: nat)
      requires Valid() && w in owed
      modifies this`owed, this`settled
      ensures Valid() && w !in old(settled) && settled == old(settled)[w := old(owed)[w]] && owed == old(owed) - {w}
    {
      hide WaitersOk;
      hide HeapOk;
      OneSettled(keyOf, pending, owed, settled, w);
      settled := settled[w := owed[w]];
      owed := owed - {w};
    }

    /**
     Everything due by `now` is taken off the queue, and its cache entry dropped unless a newer one
     has replaced it.
     */
    method Purge(now: int)
      requires Valid()
      modifies this`cache, this`queue
      ensures Valid()
      ensures cache == map k | k in old(cache) && old(cache)[k].expiry > now :: old(cache)[k]
    {
      hide WaitersOk;
      hide FoundOk;
      ghost var before := cache;
      while |queue| > 0
        invariant HeapOk(cache, queue) && cache.Keys <= before.Keys
        invariant forall k | k in cache :: cache[k] == before[k]
        invariant forall k | k in before && before[k].expiry > now :: k in cache
        decreases |queue|
      {
        var top := Top(queue);
        if top.expiry > now {
          break;
        }
        if top.key in cache && cache[top.key].expiry <= now {
          cache := cache - {top.key};
        }
        PopKeeps(cache, queue, top, now);
        queue := queue - multiset{top};
      }
      SubCacheFound(found, keyOf, before, cache, owed, settled);
    }
  }
}
