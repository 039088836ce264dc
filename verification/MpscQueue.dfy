/**
 The unbounded multiple-producer single-consumer queue, one atomic step at a time.

 `push` is two steps, the exchange of `tail_` and the store to `prev->next`; any number
 of producers may be stopped between them.  `pop` is two steps as well: the load of
 `head->next`, and the move of `head_` followed by the deletion of the old head.
 Deleting a node removes it from `next`, so an access to a node outside `next` would be
 a use after free.
 */
module MpscQueue {
  import opened LinkedList

  type Thread = nat

  /** The locals of a push between its two steps; `index`, its place in the exchange order, is history. */
  datatype Flight = Flight(prev: Node, node: Node, index: nat)

  /**
   The memory is `head`, `tail`, `next` and `value`; `flights` holds the locals of the
   producers and `loaded` the local of the consumer.  History, which no step reads: every
   node in the order of the tail exchanges (the stub first) and the last place of each address
   in it, every value in that order, which pushes are half done and by whom, how many values
   were popped, and what the pops returned.
   */
  datatype Queue<T> = Queue(
    head: Node,
    tail: Node,
    next: map<Node, Link>,
    value: map<Node, T>,
    flights: map<Thread, Flight>,
    loaded: Link,
    order: seq<Node>,
    place: map<Node, nat>,
    pushed: seq<T>,
    half: map<nat, Thread>,
    popped: nat,
    taken: seq<T>)

  // ---------------------------------------------------------------- steps

  function Empty<T>(stub: Node): (q: Queue<T>)
    ensures Inv(q) && q.taken == q.pushed == []
  {
    Queue(stub, stub, map[stub := Nil], map[], map[], Nil, [stub], map[stub := 0], [], map[], 0, [])
  }

  /** push, first step: a new node, at any address not in use, becomes the tail. */
  function Exchange<T>(q: Queue<T>, t: Thread, n: Node, v: T): Queue<T> {
    q.(tail := n,
       next := q.next[n := Nil],
       value := q.value[n := v],
       flights := q.flights[t := Flight(q.tail, n, |q.order|)],
       order := q.order + [n],
       place := q.place[n := |q.order|],
       pushed := q.pushed + [v],
       half := q.half[|q.order| := t])
  }

  ghost predicate CanExchange<T>(q: Queue<T>, t: Thread, n: Node) {
    t !in q.flights && n !in q.next
  }

  /** push, second step: the previous tail is linked to the new node. */
  function LinkUp<T>(q: Queue<T>, t: Thread): Queue<T>
    requires t in q.flights
  {
    q.(next := q.next[q.flights[t].prev := To(q.flights[t].node)],
       flights := q.flights - {t},
       half := q.half - {q.flights[t].index})
  }

  /** pop, first step: nullopt if this loads nullptr. */
  function LoadNext<T>(q: Queue<T>): Queue<T>
    requires q.head in q.next
  {
    q.(loaded := q.next[q.head])
  }

  /** pop, second step. */
  function Advance<T>(q: Queue<T>): Queue<T>
    requires q.loaded.To? && q.loaded.node in q.value
  {
    q.(head := q.loaded.node,
       next := q.next - {q.head},
       loaded := Nil,
       popped := q.popped + 1,
       taken := q.taken + [q.value[q.loaded.node]])
  }

  /** `!empty()`: the node behind head is linked. */
  predicate Reachable<T>(q: Queue<T>) {
    q.head in q.next && q.next[q.head] != Nil
  }

  datatype Event<T> = Exchanged(t: Thread, n: Node, v: T) | Linked(t: Thread) | Loaded | Advanced

  ghost predicate Step<T>(q: Queue<T>, q': Queue<T>, e: Event<T>) {
    match e
    case Exchanged(t, n, v) => CanExchange(q, t, n) && q' == Exchange(q, t, n, v)
    case Linked(t) => t in q.flights && q' == LinkUp(q, t)
    case Loaded => q.loaded == Nil && q.head in q.next && q' == LoadNext(q)
    case Advanced => q.loaded.To? && q.loaded.node in q.value && q' == Advance(q)
  }

  ghost predicate Next<T(!new)>(q: Queue<T>, q': Queue<T>) {
    exists e :: Step(q, q', e)
  }

  ghost predicate IsRun<T(!new)>(run: seq<Queue<T>>) {
    && run != []
    && run[0] == Empty(run[0].head)
    && forall i :: 0 <= i < |run| - 1 ==> Next(run[i], run[i + 1])
  }

  // ------------------------------------------------------------ invariant

  ghost predicate OrderInv<T>(q: Queue<T>) {
    && |q.order| == |q.pushed| + 1
    && q.popped < |q.order|
    && q.head == q.order[q.popped]
    && q.tail == q.order[|q.order| - 1]
    && (forall i :: q.popped <= i < |q.order| ==> q.order[i] in q.place && q.place[q.order[i]] == i)
    && (forall i :: q.popped < i < |q.order| ==> q.order[i] in q.value && q.value[q.order[i]] == q.pushed[i - 1])
    && q.taken == q.pushed[..q.popped]
  }

  /** The link of the i-th node: to its successor, unless that is absent or its push is half done. */
  function Successor<T>(q: Queue<T>, i: nat): Link
    requires i < |q.order|
  {
    if i + 1 < |q.order| && i + 1 !in q.half then To(q.order[i + 1]) else Nil
  }

  ghost predicate LinkedAt<T>(q: Queue<T>, i: nat)
    requires i < |q.order|
  {
    q.order[i] in q.next && q.next[q.order[i]] == Successor(q, i)
  }

  /** Exactly the nodes from head on are allocated, and each is linked as `Successor` says. */
  ghost predicate LinkInv<T>(q: Queue<T>) {
    && (forall n :: n in q.next ==> n in q.place && q.popped <= q.place[n] < |q.order| && q.order[q.place[n]] == n)
    && (forall i :: q.popped <= i < |q.order| ==> LinkedAt(q, i))
    && (q.loaded != Nil ==> q.head in q.next && q.next[q.head] == q.loaded)
  }

  /** The locals of a half-done push are neighbours in the exchange order, and the first is not popped. */
  ghost predicate FlightInv<T>(q: Queue<T>) {
    && (forall t :: t in q.flights ==> q.flights[t].index in q.half && q.half[q.flights[t].index] == t)
    && (forall i :: i in q.half ==> HalfAt(q, i))
  }

  ghost predicate HalfAt<T>(q: Queue<T>, i: nat)
    requires i in q.half
  {
    && q.popped < i < |q.order|
    && q.half[i] in q.flights
    && q.flights[q.half[i]] == Flight(q.order[i - 1], q.order[i], i)
  }

  ghost predicate Inv<T>(q: Queue<T>) {
    OrderInv(q) && FlightInv(q) && LinkInv(q)
  }

  // ---------------------------------------------------------------- proof

  lemma ExchangeKeepsLinks<T>(q: Queue<T>, t: Thread, n: Node, v: T)
    requires Inv(q) && CanExchange(q, t, n)
    ensures LinkInv(Exchange(q, t, n, v))
  {
    var q' := Exchange(q, t, n, v);
    hide FlightInv;
    forall i | q'.popped <= i < |q'.order| ensures LinkedAt(q', i) {
      if i < |q.order| { assert LinkedAt(q, i); }
    }
  }

  lemma ExchangeKeepsOrder<T>(q: Queue<T>, t: Thread, n: Node, v: T)
    requires Inv(q) && CanExchange(q, t, n)
    ensures OrderInv(Exchange(q, t, n, v)) && q.head != n
  {
    forall i: nat | q.popped <= i < |q.order|
      ensures q.order[i] != n
    {
      assert LinkedAt(q, i);
    }
    hide LinkInv;
    hide FlightInv;
  }

  lemma ExchangeKeepsFlights<T>(q: Queue<T>, t: Thread, n: Node, v: T)
    requires Inv(q) && CanExchange(q, t, n)
    ensures FlightInv(Exchange(q, t, n, v))
  {
    var q' := Exchange(q, t, n, v);
    hide LinkInv;
    forall u | u in q'.flights ensures q'.flights[u].index in q'.half && q'.half[q'.flights[u].index] == u {
      if u != t { assert HalfAt(q, q.flights[u].index); }
    }
    forall i | i in q'.half ensures HalfAt(q', i) {
      if i != |q.order| { assert HalfAt(q, i); }
    }
  }

  lemma ExchangeKeepsInv<T>(q: Queue<T>, t: Thread, n: Node, v: T)
    requires Inv(q) && CanExchange(q, t, n)
    ensures Inv(Exchange(q, t, n, v))
    ensures Reachable(Exchange(q, t, n, v)) <==> Reachable(q)
  {
    ExchangeKeepsLinks(q, t, n, v);
    ExchangeKeepsFlights(q, t, n, v);
    ExchangeKeepsOrder(q, t, n, v);
    assert LinkedAt(q, q.popped);
    hide LinkInv;
    hide FlightInv;
    hide OrderInv;
  }

  /** The `prev` a producer is about to write to is allocated and still has a null `next`. */
  lemma FlightIsSafe<T>(q: Queue<T>, t: Thread)
    requires Inv(q) && t in q.flights
    ensures q.flights[t].prev in q.next && q.next[q.flights[t].prev] == Nil && q.flights[t].node in q.next
  {
    var i := q.flights[t].index;
    assert HalfAt(q, i);
    assert LinkedAt(q, i - 1) && LinkedAt(q, i);
  }

  lemma LinkedStays<T>(q: Queue<T>, t: Thread, i: nat)
    requires OrderInv(q) && t in q.flights && q.flights[t].index in q.half && HalfAt(q, q.flights[t].index)
             && q.half[q.flights[t].index] == t
    requires q.popped <= i < |q.order| && LinkedAt(q, i)
    ensures LinkedAt(LinkUp(q, t), i)
  {
    var k := q.flights[t].index;
    assert q.place[q.order[k - 1]] == k - 1 && q.place[q.order[i]] == i;
  }

  lemma LinkKeepsLinks<T>(q: Queue<T>, t: Thread)
    requires Inv(q) && t in q.flights
    ensures LinkInv(LinkUp(q, t))
  {
    FlightIsSafe(q, t);
    var q' := LinkUp(q, t);
    assert HalfAt(q, q.flights[t].index);
    hide FlightInv;
    hide HalfAt;
    forall i | q'.popped <= i < |q'.order| ensures LinkedAt(q', i) {
      LinkedStays(q, t, i);
    }
    hide LinkedAt;
    assert q.loaded != Nil ==> q.head != q.flights[t].prev;
  }

  lemma LinkKeepsFlights<T>(q: Queue<T>, t: Thread)
    requires Inv(q) && t in q.flights
    ensures FlightInv(LinkUp(q, t))
  {
  }

  lemma LinkKeepsInv<T>(q: Queue<T>, t: Thread)
    requires Inv(q) && t in q.flights
    ensures Inv(LinkUp(q, t))
    ensures Reachable(LinkUp(q, t)) <==> Reachable(q) || q.flights[t].prev == q.head
  {
    hide FlightInv;
    FlightIsSafe(q, t);
    LinkKeepsLinks(q, t);
    LinkKeepsFlights(q, t);
    assert LinkedAt(q, q.popped);
    hide LinkInv;
    hide LinkedAt;
  }

  lemma AdvanceKeepsLinks<T>(q: Queue<T>)
    requires Inv(q) && q.loaded.To?
    ensures q.loaded.node in q.value && q.popped < |q.pushed| && LinkInv(Advance(q))
  {
    assert LinkedAt(q, q.popped);
    var q' := Advance(q);
    forall i | q'.popped <= i < |q'.order| ensures LinkedAt(q', i) {
      assert LinkedAt(q, i);
      assert q.place[q.order[i]] == i;
    }
  }

  lemma AdvanceKeepsFlights<T>(q: Queue<T>)
    requires Inv(q) && q.loaded.To? && q.loaded.node in q.value
    ensures FlightInv(Advance(q))
  {
    assert LinkedAt(q, q.popped);
    hide LinkInv;
    var q' := Advance(q);
    forall i | i in q'.half
      ensures HalfAt(q', i)
    {
      assert HalfAt(q, i);
    }
  }

  lemma AdvanceKeepsInv<T>(q: Queue<T>)
    requires Inv(q) && q.loaded.To?
    ensures q.loaded.node in q.value && q.popped < |q.pushed| && Inv(Advance(q))
    ensures Advance(q).taken == q.taken + [q.pushed[q.popped]]
  {
    AdvanceKeepsLinks(q);
    AdvanceKeepsFlights(q);
    assert LinkedAt(q, q.popped);
    hide LinkInv;
    hide FlightInv;
    assert q.pushed[..q.popped + 1] == q.pushed[..q.popped] + [q.pushed[q.popped]];
  }

  lemma LoadKeepsInv<T>(q: Queue<T>)
    requires Inv(q) && q.head in q.next
    ensures Inv(LoadNext(q))
  {
    var q' := LoadNext(q);
    forall i | q'.popped <= i < |q'.order| ensures LinkedAt(q', i) {
      assert LinkedAt(q, i);
    }
    forall i | i in q'.half ensures HalfAt(q', i) {
      assert HalfAt(q, i);
    }
  }

  lemma StepKeepsInv<T>(q: Queue<T>, q': Queue<T>, e: Event<T>)
    requires Inv(q) && Step(q, q', e)
    ensures Inv(q')
  {
    hide Inv;
    match e
    case Exchanged(t, n, v) => ExchangeKeepsInv(q, t, n, v);
    case Linked(t) => LinkKeepsInv(q, t);
    case Loaded => LoadKeepsInv(q);
    case Advanced => AdvanceKeepsInv(q);
  }

  lemma {:induction false} RunKeepsInv<T(!new)>(run: seq<Queue<T>>, i: nat)
    requires IsRun(run) && i < |run|
    ensures Inv(run[i])
  {
    if i > 0 {
      RunKeepsInv(run, i - 1);
      hide Inv;
      assert Next(run[i - 1], run[i]);
      var e :| Step(run[i - 1], run[i], e);
      StepKeepsInv(run[i - 1], run[i], e);
    }
  }

  // --------------------------------------------------------- main results

  /** The abstract queue: what was pushed, in the order of the tail exchanges, and not popped yet. */
  function Contents<T>(q: Queue<T>): seq<T>
    requires q.popped <= |q.pushed|
  {
    q.pushed[q.popped..]
  }

  /** Every step is a step of a plain queue: the exchange enqueues, the head move dequeues, the rest do nothing. */
  lemma RefinesFifo<T(!new)>(run: seq<Queue<T>>, i: nat, e: Event<T>)
    requires IsRun(run) && i + 1 < |run| && Step(run[i], run[i + 1], e)
    ensures run[i].popped <= |run[i].pushed| && run[i + 1].popped <= |run[i + 1].pushed|
    ensures var c, c' := Contents(run[i]), Contents(run[i + 1]);
            match e
            case Exchanged(_, _, v) => c' == c + [v] && run[i + 1].taken == run[i].taken
            case Advanced => c != [] && c' == c[1..] && run[i + 1].taken == run[i].taken + [c[0]]
            case _ => c' == c && run[i + 1].taken == run[i].taken
  {
    RunKeepsInv(run, i);
    var q := run[i];
    if e.Advanced? { AdvanceKeepsInv(q); }
    hide LinkInv;
    hide FlightInv;
    if e.Exchanged? { assert (q.pushed + [e.v])[q.popped..] == q.pushed[q.popped..] + [e.v]; }
  }

  /** Each value is popped at most once, and in the order of the tail exchanges. */
  lemma PoppedIsPrefix<T(!new)>(run: seq<Queue<T>>, i: nat)
    requires IsRun(run) && i < |run|
    ensures run[i].taken <= run[i].pushed && |run[i].taken| == run[i].popped
  {
    RunKeepsInv(run, i);
  }

  /** In every state of every run the next write of every half-done push goes to allocated memory. */
  lemma NoUseAfterFree<T(!new)>(run: seq<Queue<T>>, i: nat, t: Thread)
    requires IsRun(run) && i < |run|
    ensures run[i].head in run[i].next
    ensures t in run[i].flights ==>
              run[i].flights[t].prev in run[i].next && run[i].next[run[i].flights[t].prev] == Nil
  {
    RunKeepsInv(run, i);
    assert LinkedAt(run[i], run[i].popped);
    if t in run[i].flights { FlightIsSafe(run[i], t); }
  }

  /** Thread `t` is between the two steps of the push whose turn it is to be popped. */
  ghost predicate NextIsHalfDone<T>(q: Queue<T>, t: Thread) {
    t in q.flights && q.flights[t].prev == q.head && q.flights[t].index == q.popped + 1
  }

  /** What `pop` returning nullopt means: the queue is empty, or the push whose turn it is stopped half way. */
  lemma WhenUnreachable<T>(q: Queue<T>)
    requires Inv(q)
    ensures !Reachable(q) <==> (q.taken == q.pushed || exists t :: NextIsHalfDone(q, t))
  {
    assert LinkedAt(q, q.popped);
    if !Reachable(q) && q.popped + 1 in q.half {
      assert HalfAt(q, q.popped + 1);
      assert NextIsHalfDone(q, q.half[q.popped + 1]);
    }
    assert q.taken == q.pushed <==> q.popped == |q.pushed|;
  }
}
