/**
 The PostgreSQL connection pool. All of it runs on one scheduler, so each entry point is one step:
 an acquire, a cancellation, the end of a connect, a returned or broken connection reaching the pool.
 A waiter is settled when its promise is set, and returned when its acquire has come back after that.

 Connections and waiters are numbers. Besides its own fields the pool keeps where every connection
 outside it is: in a waiter's promise, with a borrower, broken in a borrower's hands, or on its way back.
 */
module Pool {
  import opened Collections

  class PoolState {
    const maxSize: nat
    var totalCount: nat
    var idle: seq<nat>
    var waiters: seq<nat>
    var cancelled: set<nat>
    var settled: set<nat>
    var returned: set<nat>
    var connecting: set<nat>
    var delivered: map<nat, nat>
    var borrowed: set<nat>
    var broken: set<nat>
    var returning: set<nat>
    var detaching: nat
    ghost var waited: set<nat>
    ghost var made: set<nat>

    /** The count covers what is idle, being made, delivered, borrowed and whole, and on its way back. */
    ghost predicate CountOk()
      reads this
    {
      totalCount == |idle| + |connecting| + |delivered| + |borrowed| + |returning| + detaching <= maxSize
    }

    ghost predicate PlacesOk()
      reads this
    {
      Places(idle, delivered, borrowed, broken, returning, made)
    }

    ghost predicate WaitersOk()
      reads this
    {
      Waiters(waiters, connecting, settled, cancelled, waited) && Promises(delivered, returned, settled)
    }

    /** A waiter that is not cancelled waits only while no connection is idle and none may be made. */
    ghost predicate ServedOk()
      reads this
    {
      Queued() != [] ==> idle == [] && totalCount == maxSize
    }

    ghost predicate Valid()
      reads this
    {
      CountOk() && PlacesOk() && WaitersOk() && ServedOk()
    }

    constructor (maxSize: nat)
      ensures Valid() && this.maxSize == maxSize && totalCount == 0 && idle == [] && waiters == []
      ensures waited == {} && made == {} && cancelled == {} && settled == {} && returned == {} && connecting == {}
    {
      this.maxSize, totalCount, idle, waiters := maxSize, 0, [], [];
      cancelled, settled, returned, connecting, delivered := {}, {}, {}, {}, map[];
      borrowed, broken, returning, detaching := {}, {}, {}, 0;
      waited, made := {}, {};
    }

    /** A connection has come free: it went to the first who waited, or else is the last idle one. */
    ghost predicate GoesTo(queued: seq<nat>, idle: seq<nat>, delivered: map<nat, nat>, settled: set<nat>, c: nat)
      reads this
    {
      if queued == [] then
        && this.idle == idle + [c] && this.delivered == delivered && this.settled == settled && Queued() == []
      else
        && this.idle == [] && this.delivered == delivered[queued[0] := c] && this.settled == settled + {queued[0]}
        && Queued() == queued[1..]
    }

    /** A connection is no more: one is made for the first who waited, or else there is room for another. */
    ghost predicate LeavesRoom(queued: seq<nat>, connecting: set<nat>, totalCount: nat)
      reads this
    {
      if queued == [] then
        && this.connecting == connecting && this.totalCount == totalCount - 1 && Queued() == []
      else
        && this.connecting == connecting + {queued[0]} && this.totalCount == totalCount && Queued() == queued[1..]
    }

    /** The waiters that still wait. */
    ghost function Queued(): seq<nat>
      reads this
    {
      Uncancelled(waiters, cancelled)
    }

    /** At most one waiter too many, or one connection too many. */
    ghost predicate AlmostServed()
      reads this
    {
      totalCount <= maxSize && (|Queued()| <= 1 || |idle| + (maxSize - totalCount) <= 1)
    }

    /** Cancelled waiters at the head of the queue are dropped. */
    method SkipCancelled()
      requires CountOk() && PlacesOk() && WaitersOk()
      modifies this`waiters
      ensures CountOk() && PlacesOk() && WaitersOk() && Queued() == old(Queued())
      ensures waiters == [] ==> Queued() == []
      ensures waiters != [] ==>
                waiters[0] !in cancelled && Queued() == [waiters[0]] + Uncancelled(waiters[1..], cancelled)
    {
      while waiters != [] && waiters[0] in cancelled
        invariant WaitersOk() && Queued() == old(Queued())
      {
        assert waiters[0] in waiters && waiters[0] in settled;
        waiters := waiters[1..];
      }
    }

    /**
     Serves the first waiter that is not cancelled, from the idle connections or by starting a
     connect. It is called when there may be one waiter or one connection too many, and one is enough.
     Waiters are served in the order in which they asked, idle connections in the order they came. A
     promise is only ever set for a waiter that is not settled.
     */
    method Dispatch()
      requires CountOk() && PlacesOk() && WaitersOk() && AlmostServed()
      modifies this`totalCount, this`idle, this`waiters, this`settled, this`connecting, this`delivered
      ensures Valid()
      ensures old(Queued() == [] || (idle == [] && totalCount == maxSize)) ==>
                && Queued() == old(Queued()) && idle == old(idle) && totalCount == old(totalCount)
                && connecting == old(connecting) && delivered == old(delivered) && settled == old(settled)
      ensures old(Queued() != [] && idle != []) ==>
                && Queued() == old(Queued())[1..] && idle == old(idle)[1..] && totalCount == old(totalCount)
                && connecting == old(connecting)
                && delivered == old(delivered)[old(Queued())[0] := old(idle)[0]]
                && settled == old(settled) + {old(Queued())[0]}
      ensures old(Queued() != [] && idle == [] && totalCount < maxSize) ==>
                && Queued() == old(Queued())[1..] && idle == [] && totalCount == old(totalCount) + 1
                && connecting == old(connecting) + {old(Queued())[0]}
                && delivered == old(delivered) && settled == old(settled)
    {
      hide Places;
      hide Promises;
      hide Waiters;
      hide Uncancelled;
      SkipCancelled();
      if waiters == [] {
        return;
      }
      var w := waiters[0];
      FirstWaits(waiters, connecting, settled, cancelled, waited);
      if idle != [] {
        Deliver(w, idle[0]);
      } else if totalCount < maxSize {
        StartConnect(w);
      }
    }

    /** A connect is started for the first waiter. */
    method StartConnect(w: nat)
      requires CountOk() && PlacesOk() && WaitersOk() && totalCount < maxSize
      requires waiters != [] && waiters[0] == w && w !in cancelled
      modifies this`totalCount, this`waiters, this`connecting
      ensures CountOk() && PlacesOk() && WaitersOk()
      ensures waiters == old(waiters)[1..] && connecting == old(connecting) + {w} && totalCount == old(totalCount) + 1
    {
      hide Places;
      hide Promises;
      hide Waiters;
      FirstWaits(waiters, connecting, settled, cancelled, waited);
      totalCount := totalCount + 1;
      waiters := waiters[1..];
      connecting := connecting + {w};
    }

    /** A promise is set, once. */
    method Settle(w: nat)
      requires w !in settled
      modifies this`settled
      ensures settled == old(settled) + {w}
    {
      settled := settled + {w};
    }

    /**
     A caller asks for a connection: it is served at once if one is idle or may be made, else it is the
     last to wait. With a token that is cancelled already it only passes through the queue.
     */
    method Acquire(w: nat, already: bool)
      requires Valid() && w !in waited
      modifies this`totalCount, this`idle, this`waiters, this`cancelled, this`settled, this`connecting, this`delivered,
               this`waited
      ensures Valid() && waited == old(waited) + {w}
      ensures cancelled == if already then old(cancelled) + {w} else old(cancelled)
      ensures already || old(idle == [] && totalCount == maxSize) ==>
                && idle == old(idle) && totalCount == old(totalCount)
                && delivered == old(delivered) && connecting == old(connecting)
                && Queued() == (if already then old(Queued()) else old(Queued()) + [w])
                && settled == (if already then old(settled) + {w} else old(settled))
      ensures !already && old(idle != []) ==>
                && idle == old(idle)[1..] && totalCount == old(totalCount) && connecting == old(connecting)
                && delivered == old(delivered)[w := old(idle)[0]] && settled == old(settled) + {w} && Queued() == []
      ensures !already && old(idle == [] && totalCount < maxSize) ==>
                && idle == [] && totalCount == old(totalCount) + 1 && connecting == old(connecting) + {w}
                && delivered == old(delivered) && settled == old(settled) && Queued() == []
    {
      hide Places;
      hide Waiters;
      hide Uncancelled;
      hide Promises;
      Enqueue(waiters, connecting, settled, cancelled, waited, w);
      PromiseSet(delivered, returned, settled, w);
      if already {
        cancelled := cancelled + {w};
        settled := settled + {w};
      }
      waited := waited + {w};
      waiters := waiters + [w];
      Dispatch();
    }

    /**
     A caller gives up. Once its acquire has returned nothing happens, and nothing happens twice; but a
     promise that is set, for a caller that has not resumed yet, is set again, and that throws.
     */
    method Cancel(w: nat) returns (threw: bool)
      requires Valid() && w in waited
      modifies this`cancelled, this`settled
      ensures Valid() && (threw <==> w in old(settled) && w !in old(cancelled) && w !in returned)
      ensures w in returned ==> cancelled == old(cancelled) && settled == old(settled)
      ensures w !in returned ==> cancelled == old(cancelled) + {w} && settled == old(settled) + {w}
    {
      hide Places;
      hide Waiters;
      hide Uncancelled;
      CancelWaiter(waiters, connecting, settled, cancelled, waited, w);
      FewerWait(waiters, cancelled, w);
      hide Promises;
      PromiseSet(delivered, returned, settled, w);
      threw := false;
      if w !in returned && w !in cancelled {
        cancelled := cancelled + {w};
        if w in settled {
          threw := true;
        } else {
          Settle(w);
        }
      }
    }

    /** An acquire comes back with the error its promise was set to. */
    method Fail(w: nat)
      requires Valid() && w in settled && w !in delivered && w !in returned
      modifies this`returned
      ensures Valid() && returned == old(returned) + {w}
    {
      hide Places;
      hide Waiters;
      hide Uncancelled;
      hide Promises;
      PromiseTaken(delivered, returned, settled, w);
      returned := returned + {w};
    }

    /** A connect for waiter `w` ends: with connection `c`, or in failure. */
    method ConnectEnds(w: nat, success: bool, c: nat)
      requires Valid() && w in connecting && (success ==> c !in made)
      modifies this`totalCount, this`idle, this`waiters, this`settled, this`connecting, this`delivered, this`made
      ensures Valid() && cancelled == old(cancelled) && waited == old(waited) && returned == old(returned)
      ensures made == if success then old(made) + {c} else old(made)
      ensures success && w !in old(cancelled) ==>
                && connecting == old(connecting) - {w} && delivered == old(delivered)[w := c]
                && settled == old(settled) + {w} && Queued() == old(Queued())
                && idle == old(idle) && totalCount == old(totalCount)
      ensures success && w in old(cancelled) ==>
                && connecting == old(connecting) - {w} && totalCount == old(totalCount)
                && GoesTo(old(Queued()), old(idle), old(delivered), old(settled), c)
      ensures !success ==>
                && idle == old(idle) && delivered == old(delivered) && settled == old(settled) + {w}
                && LeavesRoom(old(Queued()), old(connecting) - {w}, old(totalCount))
    {
      hide Places;
      hide Promises;
      hide Waiters;
      hide Uncancelled;
      if !success {
        ConnectFails(w);
      } else if w !in cancelled {
        ConnectDelivers(w, c);
      } else {
        ConnectTooLate(w, c);
      }
    }

    method ConnectFails(w: nat)
      requires Valid() && w in connecting
      modifies this`totalCount, this`idle, this`waiters, this`settled, this`connecting, this`delivered
      ensures Valid() && idle == old(idle) && delivered == old(delivered) && settled == old(settled) + {w}
      ensures LeavesRoom(old(Queued()), old(connecting) - {w}, old(totalCount))
    {
      hide Places;
      hide Waiters;
      hide Uncancelled;
      hide Promises;
      PromiseSet(delivered, returned, settled, w);
      EndConnect(waiters, connecting, settled, cancelled, waited, w);
      connecting := connecting - {w};
      totalCount := totalCount - 1;
      if w !in cancelled {
        Settle(w);
      }
      Dispatch();
    }

    method ConnectDelivers(w: nat, c: nat)
      requires Valid() && w in connecting && w !in cancelled && c !in made
      modifies this`settled, this`connecting, this`delivered, this`made
      ensures Valid() && made == old(made) + {c} && delivered == old(delivered)[w := c]
      ensures connecting == old(connecting) - {w} && settled == old(settled) + {w} && Queued() == old(Queued())
    {
      hide Places;
      hide Waiters;
      hide Uncancelled;
      EndConnect(waiters, connecting, settled, cancelled, waited, w);
      hide Promises;
      PromiseFull(delivered, returned, settled, w, c);
      NewDelivered(idle, delivered, borrowed, broken, returning, made, w, c);
      connecting := connecting - {w};
      made := made + {c};
      Settle(w);
      delivered := delivered[w := c];
    }

    /** The waiter was cancelled meanwhile: its connection goes to the next one. */
    method ConnectTooLate(w: nat, c: nat)
      requires Valid() && w in connecting && w in cancelled && c !in made
      modifies this`totalCount, this`idle, this`waiters, this`settled, this`connecting, this`delivered, this`made
      ensures Valid() && made == old(made) + {c} && connecting == old(connecting) - {w} && totalCount == old(totalCount)
      ensures GoesTo(old(Queued()), old(idle), old(delivered), old(settled), c)
    {
      hide Places;
      hide Waiters;
      hide Uncancelled;
      hide Promises;
      PromiseSet(delivered, returned, settled, w);
      EndConnect(waiters, connecting, settled, cancelled, waited, w);
      NewIdle(idle, delivered, borrowed, broken, returning, made, c);
      connecting := connecting - {w};
      made := made + {c};
      idle := idle + [c];
      Dispatch();
    }

    /** The caller takes the connection out of its promise. */
    method PickUp(w: nat) returns (c: nat)
      requires Valid() && w in delivered
      modifies this`delivered, this`borrowed, this`returned
      ensures Valid() && returned == old(returned) + {w} && c == old(delivered[w]) && borrowed == old(borrowed) + {c}
              && delivered == old(delivered) - {w}
    {
      hide Places;
      hide Waiters;
      hide Uncancelled;
      c := delivered[w];
      assert w in settled;
      hide Promises;
      PromiseTaken(delivered, returned, settled, w);
      PickUpPlace(idle, delivered, borrowed, broken, returning, made, w);
      delivered := delivered - {w};
      returned := returned + {w};
      borrowed := borrowed + {c};
    }

    /** A borrowed connection breaks: the pool will be told, and it will not be returned. */
    method Breaks(c: nat)
      requires Valid() && c in borrowed
      modifies this`borrowed, this`broken, this`detaching
      ensures Valid() && borrowed == old(borrowed) - {c} && broken == old(broken) + {c}
      ensures detaching == old(detaching) + 1
    {
      hide Places;
      hide Promises;
      hide Waiters;
      hide Uncancelled;
      BreakPlace(idle, delivered, borrowed, broken, returning, made, c);
      borrowed := borrowed - {c};
      broken := broken + {c};
      detaching := detaching + 1;
    }

    /** A borrower lets go: a whole connection is on its way back, a broken one is gone. */
    method Release(c: nat)
      requires Valid() && (c in borrowed || c in broken)
      modifies this`borrowed, this`broken, this`returning, this`made
      ensures Valid()
      ensures c in old(borrowed) ==>
                && borrowed == old(borrowed) - {c} && returning == old(returning) + {c}
                && broken == old(broken) && made == old(made)
      ensures c in old(broken) ==>
                && borrowed == old(borrowed) && returning == old(returning)
                && broken == old(broken) - {c} && made == old(made) - {c}
    {
      hide Places;
      hide Promises;
      hide Waiters;
      hide Uncancelled;
      if c in borrowed {
        WholeReleased(idle, delivered, borrowed, broken, returning, made, c);
        borrowed := borrowed - {c};
        returning := returning + {c};
      } else {
        BrokenReleased(idle, delivered, borrowed, broken, returning, made, c);
        broken := broken - {c};
        made := made - {c};
      }
    }

    /** A connection comes back, alive or dead. */
    method ReturnArrives(c: nat, alive: bool)
      requires Valid() && c in returning
      modifies this`totalCount, this`idle, this`waiters, this`settled, this`connecting, this`delivered
      modifies this`returning, this`made
      ensures Valid() && returning == old(returning) - {c}
      ensures alive ==>
                && made == old(made) && totalCount == old(totalCount) && connecting == old(connecting)
                && GoesTo(old(Queued()), old(idle), old(delivered), old(settled), c)
      ensures !alive ==>
                && made == old(made) - {c}
                && idle == old(idle) && delivered == old(delivered) && settled == old(settled)
                && LeavesRoom(old(Queued()), old(connecting), old(totalCount))
    {
      hide Places;
      hide Promises;
      hide Waiters;
      hide Uncancelled;
      ReturnPlace(idle, delivered, borrowed, broken, returning, made, c);
      returning := returning - {c};
      if !alive {
        made := made - {c};
        totalCount := totalCount - 1;
      } else {
        idle := idle + [c];
      }
      Dispatch();
    }

    /** The pool is told of a broken connection. */
    method DetachArrives()
      requires Valid() && detaching > 0
      modifies this`totalCount, this`idle, this`waiters, this`settled, this`connecting, this`delivered, this`detaching
      ensures Valid() && detaching == old(detaching) - 1
      ensures idle == old(idle) && delivered == old(delivered) && settled == old(settled)
      ensures LeavesRoom(old(Queued()), old(connecting), old(totalCount))
    {
      hide Places;
      hide Promises;
      hide Waiters;
      hide Uncancelled;
      detaching := detaching - 1;
      totalCount := totalCount - 1;
      Dispatch();
    }

    /** The first waiter gets the first idle connection. */
    method Deliver(w: nat, c: nat)
      requires CountOk() && PlacesOk() && WaitersOk()
      requires waiters != [] && waiters[0] == w && w !in settled && idle != [] && idle[0] == c
      modifies this`idle, this`waiters, this`settled, this`delivered
      ensures CountOk() && PlacesOk() && WaitersOk()
      ensures waiters == old(waiters)[1..] && idle == old(idle)[1..] && settled == old(settled) + {w}
      ensures delivered == old(delivered)[w := c]
    {
      hide Places;
      hide Waiters;
      hide Uncancelled;
      hide Promises;
      PromiseFull(delivered, returned, settled, w, c);
      DeliverPlace(idle, delivered, borrowed, broken, returning, made, w);
      SettleFirst(waiters, connecting, settled, cancelled, waited);
      Settle(w);
      delivered := delivered[w := c];
      idle := idle[1..];
      waiters := waiters[1..];
    }
  }

  /** Every connection made and not dropped is in exactly one place. */
  ghost predicate Places(idle: seq<nat>, delivered: map<nat, nat>, borrowed: set<nat>, broken: set<nat>,
                         returning: set<nat>, made: set<nat>)
  {
    && multiset(idle) + multiset(delivered.Values) + multiset(borrowed) + multiset(broken) + multiset(returning) ==
       multiset(made)
    && (forall w, x | w in delivered && x in delivered && w != x :: delivered[w] != delivered[x])
  }

  /**
   Every waiter is queued, has a connect running for it, or is settled; until then it is settled
   only if cancelled.
   */
  ghost predicate Waiters(waiters: seq<nat>, connecting: set<nat>, settled: set<nat>, cancelled: set<nat>,
                          waited: set<nat>)
  {
    && NoDuplicates(waiters)
    && (forall w | w in waited :: w in waiters || w in connecting || w in settled)
    && (forall w | w in waiters :: w in waited && w !in connecting && (w in settled <==> w in cancelled))
    && (forall w | w in connecting :: w in waited && (w in settled <==> w in cancelled))
    && cancelled <= settled <= waited
  }

  /** A connection is only in a promise that is set and not yet taken. */
  ghost predicate Promises(delivered: map<nat, nat>, returned: set<nat>, settled: set<nat>) {
    && (forall w | w in delivered :: w in settled && w !in returned)
    && (forall w | w in returned :: w in settled)
  }

  lemma PromiseSet(delivered: map<nat, nat>, returned: set<nat>, settled: set<nat>, w: nat)
    requires Promises(delivered, returned, settled)
    ensures Promises(delivered, returned, settled + {w})
  {
  }

  lemma PromiseFull(delivered: map<nat, nat>, returned: set<nat>, settled: set<nat>, w: nat, c: nat)
    requires Promises(delivered, returned, settled) && w !in settled
    ensures w !in delivered && Promises(delivered[w := c], returned, settled + {w})
  {
  }

  lemma PromiseTaken(delivered: map<nat, nat>, returned: set<nat>, settled: set<nat>, w: nat)
    requires Promises(delivered, returned, settled) && w in settled
    ensures Promises(delivered - {w}, returned + {w}, settled)
    ensures w !in delivered ==> Promises(delivered, returned + {w}, settled)
  {
  }

  function One(b: bool): nat {
    if b then 1 else 0
  }

  /** No connection is lost and none is in two hands: those made, and no others, are in one place, once. */
  lemma ExactlyOnePlace(idle: seq<nat>, delivered: map<nat, nat>, borrowed: set<nat>, broken: set<nat>,
                        returning: set<nat>, made: set<nat>, c: nat)
    requires Places(idle, delivered, borrowed, broken, returning, made)
    ensures multiset(idle)[c] + One(c in delivered.Values) + One(c in borrowed) + One(c in broken)
            + One(c in returning) == One(c in made)
  {
    assert multiset(made)[c] == One(c in made);
    assert multiset(delivered.Values)[c] == One(c in delivered.Values) && multiset(borrowed)[c] == One(c in borrowed);
  }

  lemma DeliverPlace(idle: seq<nat>, delivered: map<nat, nat>, borrowed: set<nat>, broken: set<nat>,
                     returning: set<nat>, made: set<nat>, w: nat)
    requires Places(idle, delivered, borrowed, broken, returning, made) && idle != [] && w !in delivered
    ensures Places(idle[1..], delivered[w := idle[0]], borrowed, broken, returning, made)
    ensures |delivered[w := idle[0]]| == |delivered| + 1
  {
    var c := idle[0];
    assert idle == [c] + idle[1..];
    ValuesAdd(delivered, w, c);
    MultisetPart(c, made, multiset(idle), multiset(delivered.Values),
        multiset(borrowed) + multiset(broken) + multiset(returning));
    PutIn(delivered.Values, c);
    assert forall x | x in delivered :: delivered[x] in delivered.Values;
  }

  lemma NewIdle(idle: seq<nat>, delivered: map<nat, nat>, borrowed: set<nat>, broken: set<nat>, returning: set<nat>,
                made: set<nat>, c: nat)
    requires Places(idle, delivered, borrowed, broken, returning, made) && c !in made
    ensures Places(idle + [c], delivered, borrowed, broken, returning, made + {c})
  {
    PutIn(made, c);
  }

  lemma NewDelivered(idle: seq<nat>, delivered: map<nat, nat>, borrowed: set<nat>, broken: set<nat>,
                     returning: set<nat>, made: set<nat>, w: nat, c: nat)
    requires Places(idle, delivered, borrowed, broken, returning, made) && c !in made && w !in delivered
    ensures Places(idle, delivered[w := c], borrowed, broken, returning, made + {c})
    ensures |delivered[w := c]| == |delivered| + 1
  {
    ValuesAdd(delivered, w, c);
    assert c !in multiset(made) && c !in multiset(delivered.Values);
    PutIn(delivered.Values, c);
    PutIn(made, c);
    assert forall x | x in delivered :: delivered[x] in delivered.Values;
  }

  lemma PickUpPlace(idle: seq<nat>, delivered: map<nat, nat>, borrowed: set<nat>, broken: set<nat>, returning: set<nat>,
                    made: set<nat>, w: nat)
    requires Places(idle, delivered, borrowed, broken, returning, made) && w in delivered
    ensures Places(idle, delivered - {w}, borrowed + {delivered[w]}, broken, returning, made)
    ensures |delivered - {w}| == |delivered| - 1 && |borrowed + {delivered[w]}| == |borrowed| + 1
  {
    var c, m := delivered[w], delivered - {w};
    ValuesAdd(m, w, c);
    assert m[w := c] == delivered;
    assert c !in m.Values;
    PutIn(m.Values, c);
    MultisetPart(c, made, multiset(delivered.Values), multiset(borrowed),
        multiset(idle) + multiset(broken) + multiset(returning));
    PutIn(borrowed, c);
  }

  lemma BreakPlace(idle: seq<nat>, delivered: map<nat, nat>, borrowed: set<nat>, broken: set<nat>, returning: set<nat>,
                   made: set<nat>, c: nat)
    requires Places(idle, delivered, borrowed, broken, returning, made) && c in borrowed
    ensures Places(idle, delivered, borrowed - {c}, broken + {c}, returning, made)
  {
  }

  lemma WholeReleased(idle: seq<nat>, delivered: map<nat, nat>, borrowed: set<nat>, broken: set<nat>,
                      returning: set<nat>, made: set<nat>, c: nat)
    requires Places(idle, delivered, borrowed, broken, returning, made) && c in borrowed
    ensures Places(idle, delivered, borrowed - {c}, broken, returning + {c}, made) && c !in broken
    ensures |borrowed - {c}| == |borrowed| - 1 && |returning + {c}| == |returning| + 1
  {
    var others := multiset(idle) + multiset(delivered.Values);
    MultisetPart(c, made, multiset(borrowed), multiset(broken) + multiset(returning), others);
    PutIn(returning, c);
    PutIn(borrowed - {c}, c);
    assert borrowed - {c} + {c} == borrowed;
  }

  lemma BrokenReleased(idle: seq<nat>, delivered: map<nat, nat>, borrowed: set<nat>, broken: set<nat>,
                       returning: set<nat>, made: set<nat>, c: nat)
    requires Places(idle, delivered, borrowed, broken, returning, made) && c in broken
    ensures Places(idle, delivered, borrowed, broken - {c}, returning, made - {c}) && c !in borrowed
  {
    var others := multiset(idle) + multiset(delivered.Values) + multiset(borrowed) + multiset(returning);
    DropFrom(broken, made, others, c);
    MultisetPart(c, made, multiset(broken), multiset(borrowed),
                 multiset(idle) + multiset(delivered.Values) + multiset(returning));
  }

  lemma DropFrom(s: set<nat>, made: set<nat>, others: multiset<nat>, c: nat)
    requires multiset(s) + others == multiset(made) && c in s
    ensures multiset(s - {c}) + others == multiset(made - {c})
  {
    assert c in multiset(made);
    forall x: nat
      ensures (multiset(s - {c}) + others)[x] == multiset(made - {c})[x]
    {
      assert (multiset(s) + others)[x] == multiset(made)[x];
      assert multiset(s)[x] == (if x in s then 1 else 0) && multiset(made)[x] == (if x in made then 1 else 0);
    }
  }

  lemma ReturnPlace(idle: seq<nat>, delivered: map<nat, nat>, borrowed: set<nat>, broken: set<nat>, returning: set<nat>,
                    made: set<nat>, c: nat)
    requires Places(idle, delivered, borrowed, broken, returning, made) && c in returning
    ensures Places(idle + [c], delivered, borrowed, broken, returning - {c}, made)
    ensures Places(idle, delivered, borrowed, broken, returning - {c}, made - {c})
  {
    PutIn(returning - {c}, c);
    assert returning - {c} + {c} == returning;
    DropFrom(returning, made, multiset(idle) + multiset(delivered.Values) + multiset(borrowed) + multiset(broken), c);
  }

  lemma FirstWaits(waiters: seq<nat>, connecting: set<nat>, settled: set<nat>, cancelled: set<nat>, waited: set<nat>)
    requires Waiters(waiters, connecting, settled, cancelled, waited) && waiters != [] && waiters[0] !in cancelled
    ensures waiters[0] !in settled && waiters[0] !in connecting
    ensures Waiters(waiters[1..], connecting + {waiters[0]}, settled, cancelled, waited)
  {
  }

  lemma {:induction false} Enqueue(waiters: seq<nat>, connecting: set<nat>, settled: set<nat>, cancelled: set<nat>,
                                   waited: set<nat>, w: nat)
    requires Waiters(waiters, connecting, settled, cancelled, waited) && w !in waited
    ensures Waiters(waiters + [w], connecting, settled, cancelled, waited + {w})
    ensures Waiters(waiters + [w], connecting, settled + {w}, cancelled + {w}, waited + {w})
    ensures Uncancelled(waiters + [w], cancelled) == Uncancelled(waiters, cancelled) + [w]
    ensures Uncancelled(waiters + [w], cancelled + {w}) == Uncancelled(waiters, cancelled)
  {
    UncancelledAdd(waiters, cancelled, w);
    UncancelledAdd(waiters, cancelled + {w}, w);
    UncancelledSame(waiters, cancelled, w);
  }

  lemma {:induction false} UncancelledSame(waiters: seq<nat>, cancelled: set<nat>, w: nat)
    requires w !in waiters
    ensures Uncancelled(waiters, cancelled + {w}) == Uncancelled(waiters, cancelled)
  {
    if waiters != [] {
      UncancelledSame(waiters[1..], cancelled, w);
    }
  }

  lemma {:induction false} UncancelledAdd(waiters: seq<nat>, cancelled: set<nat>, w: nat)
    ensures Uncancelled(waiters + [w], cancelled) ==
            Uncancelled(waiters, cancelled) + if w in cancelled then [] else [w]
  {
    if waiters == [] {
      assert [] + [w] == [w] && [w][1..] == [];
    } else {
      UncancelledAdd(waiters[1..], cancelled, w);
      assert (waiters + [w])[1..] == waiters[1..] + [w];
    }
  }

  lemma CancelWaiter(waiters: seq<nat>, connecting: set<nat>, settled: set<nat>, cancelled: set<nat>, waited: set<nat>,
                     w: nat)
    requires Waiters(waiters, connecting, settled, cancelled, waited) && w in waited
    ensures Waiters(waiters, connecting, settled + {w}, cancelled + {w}, waited)
    ensures w in cancelled ==> w in settled
    ensures w in settled ==> settled + {w} == settled
  {
  }

  lemma {:induction false} FewerWait(waiters: seq<nat>, cancelled: set<nat>, w: nat)
    ensures |Uncancelled(waiters, cancelled + {w})| <= |Uncancelled(waiters, cancelled)|
  {
    if waiters != [] {
      FewerWait(waiters[1..], cancelled, w);
    }
  }

  lemma EndConnect(waiters: seq<nat>, connecting: set<nat>, settled: set<nat>, cancelled: set<nat>, waited: set<nat>,
                   w: nat)
    requires Waiters(waiters, connecting, settled, cancelled, waited) && w in connecting
    ensures Waiters(waiters, connecting - {w}, settled + {w}, cancelled, waited)
    ensures w in cancelled <==> w in settled
    ensures w in settled ==> settled + {w} == settled
    ensures |connecting - {w}| == |connecting| - 1
  {
  }

  lemma SettleFirst(waiters: seq<nat>, connecting: set<nat>, settled: set<nat>, cancelled: set<nat>, waited: set<nat>)
    requires Waiters(waiters, connecting, settled, cancelled, waited) && waiters != []
    ensures Waiters(waiters[1..], connecting, settled + {waiters[0]}, cancelled, waited)
  {
  }

  function Uncancelled(waiters: seq<nat>, cancelled: set<nat>): seq<nat> {
    if waiters == [] then []
    else if waiters[0] in cancelled then Uncancelled(waiters[1..], cancelled)
    else [waiters[0]] + Uncancelled(waiters[1..], cancelled)
  }

  lemma ValuesAdd(m: map<nat, nat>, w: nat, c: nat)
    requires w !in m
    ensures m[w := c].Values == m.Values + {c} && |m[w := c]| == |m| + 1
  {
    var m' := m[w := c];
    forall x | x in m.Values
      ensures x in m'.Values
    {
      var k :| k in m && m[k] == x;
      assert m'[k] == x;
    }
    assert m'[w] == c;
  }

  /** What is in one part of a set is in no other. */
  lemma MultisetPart(c: nat, all: set<nat>, a: multiset<nat>, b: multiset<nat>, d: multiset<nat>)
    requires a + b + d == multiset(all) && c in a
    ensures c !in b && c !in d && a[c] == 1
  {
    assert multiset(all)[c] <= 1;
  }

  /** A cancellation between the end of the connect and the resumption of the caller throws. */
  method CancelCanThrow() returns (threw: bool)
    ensures threw
  {
    var pool := new PoolState(1);
    pool.Acquire(0, false);
    pool.ConnectEnds(0, true, 0);
    threw := pool.Cancel(0);
  }
}
