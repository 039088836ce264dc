/**
 The lock-free one-shot list under `Future` and `CancelState`: waiters push themselves with
 a compare-and-exchange loop, the first thread to close the list takes every node and walks
 them, scheduling each.

 A node lives in the frame of the coroutine that waits, so it is gone once that coroutine
 has been resumed: `next` holds the nodes that are alive.  A node is used for one await.
 */
module OneShotList {

  import opened Collections
  import opened LinkedList

  type Thread = nat

  datatype Head = Open(top: Link) | Closed

  datatype Wait =
    | Fresh                // has not awaited yet
    | AtReady              // await_ready: about to load head
    | AtLoad               // push: about to load head
    | AtCas(seen: Link)    // push: about to write next_ and compare-and-exchange
    | Suspended            // in the list, or taken from it
    | Passed               // saw the list closed and goes on without suspending
    | Resumed              // was suspended, scheduled and resumed; its frame is gone

  datatype Close =
    | Idle
    | Lost                         // found the list already closed
    | Won(first: Link)             // closed it, and has not started to walk
    | Walking(at: Link)            // about to read next_ of the node
    | AtSchedule(n: Node, after: Link)  // has read it, about to schedule the node's coroutine
    | Done

  /**
   History: which thread closed the list, the nodes in the list (newest first), those taken
   and not yet scheduled, those scheduled in that order, and every successful push in order.
   */
  datatype List = List(
    head: Head,
    next: map<Node, Link>,
    wait: map<Node, Wait>,
    closer: map<Thread, Close>,
    winner: set<Thread>,
    stack: seq<Node>,
    todo: seq<Node>,
    done: seq<Node>,
    joined: seq<Node>)

  // ---------------------------------------------------------------- steps

  ghost predicate Init(l: List) {
    && l.head == Open(Nil)
    && l.next.Keys == l.wait.Keys
    && (forall n :: n in l.wait ==> l.wait[n] == Fresh)
    && (forall t :: t in l.closer ==> l.closer[t] == Idle)
    && l.winner == {} && l.stack == [] && l.todo == [] && l.done == [] && l.joined == []
  }

  ghost predicate CallsAwait(l: List, l': List, n: Node) {
    && n in l.wait && l.wait[n] == Fresh
    && l' == l.(wait := l.wait[n := AtReady])
  }

  ghost predicate LoadsReady(l: List, l': List, n: Node) {
    && n in l.wait && l.wait[n] == AtReady
    && l' == l.(wait := l.wait[n := if l.head == Closed then Passed else AtLoad])
  }

  ghost predicate LoadsHead(l: List, l': List, n: Node) {
    && n in l.wait && l.wait[n] == AtLoad
    && l' == l.(wait := l.wait[n := if l.head == Closed then Passed else AtCas(l.head.top)])
  }

  /** The loop goes round again; it may do so although nothing changed. */
  ghost predicate PushFails(l: List, l': List, n: Node) {
    && n in l.wait && l.wait[n].AtCas?
    && l' == l.(next := l.next[n := l.wait[n].seen],
                wait := l.wait[n := if l.head == Closed then Passed else AtCas(l.head.top)])
  }

  ghost predicate PushSucceeds(l: List, l': List, n: Node) {
    && n in l.wait && l.wait[n].AtCas? && l.head == Open(l.wait[n].seen)
    && l' == l.(head := Open(To(n)),
                next := l.next[n := l.wait[n].seen],
                wait := l.wait[n := Suspended],
                stack := [n] + l.stack,
                joined := l.joined + [n])
  }

  ghost predicate Resumes(l: List, l': List, n: Node) {
    && n in l.wait && l.wait[n] == Suspended && n in l.done
    && l' == l.(wait := l.wait[n := Resumed], next := l.next - {n})
  }

  ghost predicate WaiterStep(l: List, l': List, n: Node) {
    || CallsAwait(l, l', n) || LoadsReady(l, l', n) || LoadsHead(l, l', n)
    || PushFails(l, l', n) || PushSucceeds(l, l', n) || Resumes(l, l', n)
  }

  /** close: the exchange of head with the closed mark. */
  ghost predicate Closes(l: List, l': List, t: Thread) {
    && t in l.closer && l.closer[t] == Idle
    && l' == match l.head
             case Closed => l.(closer := l.closer[t := Lost])
             case Open(top) => l.(head := Closed, closer := l.closer[t := Won(top)], winner := {t},
                                  todo := l.stack, stack := [])
  }

  /** The closer turns to the waiters; what it does before this is up to the user of the list. */
  ghost predicate StartsWalk(l: List, l': List, t: Thread) {
    && t in l.closer && l.closer[t].Won?
    && l' == l.(closer := l.closer[t := Walking(l.closer[t].first)])
  }

  /** Reads next_ of a node, which must be alive. */
  ghost predicate ReadsNext(l: List, l': List, t: Thread) {
    && t in l.closer && l.closer[t].Walking?
    && match l.closer[t].at
       case Nil => l' == l.(closer := l.closer[t := Done])
       case To(n) => n in l.next && l' == l.(closer := l.closer[t := AtSchedule(n, l.next[n])])
  }

  ghost predicate Schedules(l: List, l': List, t: Thread) {
    && t in l.closer && l.closer[t].AtSchedule?
    && l' == l.(closer := l.closer[t := Walking(l.closer[t].after)],
                todo := Tail(l.todo),
                done := l.done + [l.closer[t].n])
  }

  ghost predicate WalkStep(l: List, l': List, t: Thread) {
    ReadsNext(l, l', t) || Schedules(l, l', t)
  }

  // ------------------------------------------------------------ invariant

  ghost function Joined(l: List): set<Node> {
    set n | n in l.wait && (l.wait[n] == Suspended || l.wait[n] == Resumed)
  }

  /** Every node that joined is in the list, taken, or scheduled: in one of these, and once. */
  ghost predicate PlaceInv(l: List) {
    && multiset(l.stack) + multiset(l.todo) + multiset(l.done) == multiset(Joined(l))
    && (forall n :: n in l.wait && l.wait[n] == Resumed ==> n in l.done)
  }

  ghost predicate OrderInv(l: List) {
    l.done + l.todo + l.stack == Reverse(l.joined)
  }

  ghost predicate AliveInv(l: List) {
    && (forall n :: n in l.next <==> n in l.wait && l.wait[n] != Resumed)
    && (forall n :: n in l.wait && l.wait[n] == Passed ==> l.head == Closed)
  }

  ghost predicate WinnerInv(l: List) {
    && (l.head == Closed <==> l.winner != {})
    && (l.head != Closed ==> l.todo == [] && l.done == [])
    && (forall t, u :: t in l.winner && u in l.winner ==> t == u)
    && (forall t :: t in l.winner ==> t in l.closer)
    && (forall t :: t in l.closer ==> (t !in l.winner <==> l.closer[t].Idle? || l.closer[t].Lost?))
    && (forall t :: t in l.closer && l.closer[t].Lost? ==> l.head == Closed)
    && (l.head == Closed ==> l.stack == [])
  }

  ghost predicate WalkAt(l: List, c: Close) {
    match c
    case Won(first) => IsList(l.next, first, l.todo) && l.done == []
    case Walking(at) => IsList(l.next, at, l.todo)
    case AtSchedule(n, after) =>
        l.todo != [] && l.todo[0] == n && IsList(l.next, To(n), l.todo) && after == At(l.todo, 1)
    case Done => l.todo == []
    case _ => true
  }

  ghost predicate ListInv(l: List) {
    && (l.head.Open? ==> IsList(l.next, l.head.top, l.stack))
    && (forall t :: t in l.closer ==> WalkAt(l, l.closer[t]))
  }

  ghost predicate Inv(l: List) {
    PlaceInv(l) && OrderInv(l) && AliveInv(l) && WinnerInv(l) && ListInv(l)
  }

  // ---------------------------------------------------------------- proof

  lemma InitInv(l: List)
    requires Init(l)
    ensures Inv(l)
  {
  }

  lemma OnlyJoinedAreListed(l: List, n: Node)
    requires PlaceInv(l) && n !in Joined(l)
    ensures n !in l.stack && n !in l.todo && n !in l.done
  {
    assert n !in multiset(Joined(l));
  }

  /** All lists of a state survive a change to one node that is in none of them. */
  lemma ChangeOutside(l: List, l': List, n: Node)
    requires ListInv(l) && n !in l.stack && n !in l.todo
    requires forall m :: m in l.next && m != n ==> m in l'.next && l'.next[m] == l.next[m]
    requires l'.head == l.head && l'.closer == l.closer && l'.todo == l.todo && l'.stack == l.stack && l'.done == l.done
    ensures ListInv(l')
  {
  }

  lemma WaiterKeepsLists(l: List, l': List, n: Node)
    requires ListInv(l) && PlaceInv(l) && WaiterStep(l, l', n) && !PushSucceeds(l, l', n)
    ensures ListInv(l')
  {
    hide ListInv;
    hide PlaceInv;
    if Resumes(l, l', n) {
      ScheduledIsNotListed(l, n);
    } else {
      OnlyJoinedAreListed(l, n);
    }
    hide Joined;
    ChangeOutside(l, l', n);
  }

  /** A node that was scheduled is in no list any more. */
  lemma ScheduledIsNotListed(l: List, n: Node)
    requires PlaceInv(l) && n in l.done
    ensures n !in l.stack && n !in l.todo && n in Joined(l)
  {
    assert multiset(Joined(l))[n] <= 1;
    assert multiset(l.done)[n] >= 1;
    assert multiset(l.stack)[n] == 0 && multiset(l.todo)[n] == 0;
    assert n in multiset(Joined(l));
  }

  lemma PushKeepsLists(l: List, l': List, n: Node)
    requires Inv(l) && PushSucceeds(l, l', n)
    ensures ListInv(l')
  {
    OnlyJoinedAreListed(l, n);
    PushOnList(l.next, l.head.top, l.stack, n);
    hide IsList;
    forall t | t in l'.closer ensures WalkAt(l', l'.closer[t]) {
      assert t !in l.winner;
    }
  }

  lemma PushKeepsPlaces(l: List, l': List, n: Node)
    requires PlaceInv(l) && PushSucceeds(l, l', n) && l.todo == [] && l.done == []
    ensures PlaceInv(l')
  {
    assert Joined(l') == Joined(l) + {n};
    PutIn(Joined(l), n);
    hide Joined;
    assert multiset([n] + l.stack) == multiset{n} + multiset(l.stack);
  }

  lemma PushKeepsOrder(l: List, l': List, n: Node)
    requires OrderInv(l) && PushSucceeds(l, l', n) && l.todo == [] && l.done == []
    ensures OrderInv(l')
  {
    ReverseAppend(l.joined, n);
    hide Reverse;
    assert [] + [] + l.stack == l.stack && [] + [] + ([n] + l.stack) == [n] + l.stack;
  }

  lemma {:induction false} ReverseAppend(s: seq<Node>, n: Node)
    ensures Reverse(s + [n]) == [n] + Reverse(s)
  {
    if s != [] {
      ReverseAppend(s[1..], n);
      assert (s + [n])[1..] == s[1..] + [n];
    }
  }

  lemma WaiterKeepsAlive(l: List, l': List, n: Node)
    requires AliveInv(l) && WaiterStep(l, l', n)
    ensures AliveInv(l')
  {
    assert n in l.next <==> l.wait[n] != Resumed;
  }

  lemma WaiterKeepsWinner(l: List, l': List, n: Node)
    requires WinnerInv(l) && WaiterStep(l, l', n)
    ensures WinnerInv(l')
  {
  }

  /** A waiter moves without joining. */
  lemma SameJoined(l: List, l': List, n: Node)
    requires n in l.wait && n in l'.wait && l'.wait == l.wait[n := l'.wait[n]]
    requires (l.wait[n] == Suspended || l.wait[n] == Resumed) <==> (l'.wait[n] == Suspended || l'.wait[n] == Resumed)
    ensures Joined(l') == Joined(l)
  {
  }

  lemma WaiterKeepsPlaces(l: List, l': List, n: Node)
    requires PlaceInv(l) && OrderInv(l) && WaiterStep(l, l', n) && !PushSucceeds(l, l', n)
    ensures PlaceInv(l') && OrderInv(l')
  {
    hide Reverse;
    assert l'.stack == l.stack && l'.todo == l.todo && l'.done == l.done && l'.joined == l.joined;
    SameJoined(l, l', n);
    hide Joined;
  }

  lemma WaiterKeepsInv(l: List, l': List, n: Node)
    requires Inv(l) && WaiterStep(l, l', n)
    ensures Inv(l')
  {
    if PushSucceeds(l, l', n) {
      assert l.todo == [] && l.done == [];
      hide ListInv; hide PlaceInv; hide OrderInv; hide AliveInv; hide WinnerInv;
      PushKeepsLists(l, l', n);
      PushKeepsPlaces(l, l', n);
      PushKeepsOrder(l, l', n);
      WaiterKeepsAlive(l, l', n);
      WaiterKeepsWinner(l, l', n);
    } else {
      hide ListInv; hide PlaceInv; hide OrderInv; hide AliveInv; hide WinnerInv;
      WaiterKeepsLists(l, l', n);
      WaiterKeepsPlaces(l, l', n);
      WaiterKeepsAlive(l, l', n);
      WaiterKeepsWinner(l, l', n);
    }
  }

  lemma CloseKeepsPlaces(l: List, l': List, t: Thread)
    requires PlaceInv(l) && OrderInv(l) && WinnerInv(l) && Closes(l, l', t)
    ensures PlaceInv(l') && OrderInv(l')
  {
  }

  lemma CloseKeepsLists(l: List, l': List, t: Thread)
    requires WinnerInv(l) && ListInv(l) && Closes(l, l', t)
    ensures ListInv(l') && WinnerInv(l')
  {
  }

  lemma CloseKeepsInv(l: List, l': List, t: Thread)
    requires Inv(l) && Closes(l, l', t)
    ensures Inv(l')
  {
    hide ListInv; hide PlaceInv; hide OrderInv; hide WinnerInv;
    assert AliveInv(l');
    CloseKeepsPlaces(l, l', t);
    CloseKeepsLists(l, l', t);
  }

  /** The closer moves without touching the lists. */
  lemma MoveKeepsLists(l: List, l': List, t: Thread, c: Close)
    requires WinnerInv(l) && ListInv(l) && t in l.winner && WalkAt(l, c) && !c.Idle? && !c.Lost?
    requires l' == l.(closer := l.closer[t := c])
    ensures ListInv(l') && WinnerInv(l')
  {
  }

  lemma WalkFits(l: List, l': List, t: Thread)
    requires WinnerInv(l) && ListInv(l) && (StartsWalk(l, l', t) || ReadsNext(l, l', t))
    ensures t in l.winner && WalkAt(l, l'.closer[t])
  {
  }

  lemma WalkKeepsInv(l: List, l': List, t: Thread)
    requires Inv(l) && (StartsWalk(l, l', t) || ReadsNext(l, l', t))
    ensures Inv(l')
  {
    hide ListInv; hide OrderInv; hide WinnerInv; hide PlaceInv;
    WalkFits(l, l', t);
    MoveKeepsLists(l, l', t, l'.closer[t]);
    MoveKeepsPlaces(l, l');
  }

  lemma MoveKeepsPlaces(l: List, l': List)
    requires PlaceInv(l) && OrderInv(l) && l' == l.(closer := l'.closer)
    ensures PlaceInv(l') && OrderInv(l')
  {
  }

  lemma ScheduleKeepsPlaces(l: List, l': List, t: Thread)
    requires PlaceInv(l) && OrderInv(l) && Schedules(l, l', t) && WalkAt(l, l.closer[t])
    ensures PlaceInv(l') && OrderInv(l')
  {
    hide IsList;
    assert Joined(l') == Joined(l);
    assert l.todo == [l.closer[t].n] + l'.todo;
    assert l'.done + l'.todo == l.done + l.todo;
    assert multiset(l'.done + l'.todo) == multiset(l'.done) + multiset(l'.todo);
    assert multiset(l.done + l.todo) == multiset(l.done) + multiset(l.todo);
  }

  lemma ScheduleKeepsInv(l: List, l': List, t: Thread)
    requires Inv(l) && Schedules(l, l', t)
    ensures Inv(l')
  {
    assert WalkAt(l, l.closer[t]);
    ScheduleKeepsPlaces(l, l', t);
    hide PlaceInv; hide OrderInv;
    assert forall i :: 0 <= i < |l'.todo| ==> l'.todo[i] == l.todo[i + 1];
    forall u | u in l'.closer ensures WalkAt(l', l'.closer[u]) {
      assert u != t ==> u !in l.winner;
    }
  }

  // ----------------------------------------------------- what users need

  /** Any step but the one the user of the list decides about. */
  ghost predicate FreeStep(l: List, l': List) {
    || (exists n :: WaiterStep(l, l', n))
    || (exists t :: WalkStep(l, l', t))
  }

  lemma FreeStepKeepsInv(l: List, l': List)
    requires Inv(l) && FreeStep(l, l')
    ensures Inv(l')
  {
    hide Inv;
    if n :| WaiterStep(l, l', n) {
      WaiterKeepsInv(l, l', n);
    } else {
      var t :| WalkStep(l, l', t);
      if ReadsNext(l, l', t) { WalkKeepsInv(l, l', t); } else { ScheduleKeepsInv(l, l', t); }
    }
  }

  /** No free step closes the list, makes a winner, or starts a walk. */
  lemma FreeStepFrame(l: List, l': List)
    requires FreeStep(l, l')
    ensures l'.winner == l.winner && l'.head.Closed? == l.head.Closed?
    ensures l'.closer.Keys == l.closer.Keys && l'.wait.Keys == l.wait.Keys
    ensures forall t :: t in l.closer ==> l'.closer[t].Won? == l.closer[t].Won?
    ensures forall n :: n in l.wait && (l.wait[n] == Passed || l.wait[n] == Resumed) ==> l'.wait[n] == l.wait[n]
  {
    if n :| WaiterStep(l, l', n) {
      WaiterFrame(l, l', n);
    } else {
      var t :| WalkStep(l, l', t);
    }
  }

  lemma WaiterFrame(l: List, l': List, n: Node)
    requires WaiterStep(l, l', n)
    ensures l'.winner == l.winner && l'.head.Closed? == l.head.Closed? && l'.closer == l.closer
    ensures l'.wait.Keys == l.wait.Keys
    ensures forall n :: n in l.wait && (l.wait[n] == Passed || l.wait[n] == Resumed) ==> l'.wait[n] == l.wait[n]
  {
  }

  /** At most one thread closes the list, and one has if it is closed; every other caller has lost or not tried. */
  lemma OneWinner(l: List, t: Thread, u: Thread)
    requires Inv(l) && t in l.closer && u in l.closer
    requires !l.closer[t].Idle? && !l.closer[t].Lost? && !l.closer[u].Idle? && !l.closer[u].Lost?
    ensures t == u && l.head == Closed && l.winner == {t}
  {
  }

  /** The closer touches a node only while it is alive and not scheduled. */
  lemma WalksLiveNodes(l: List, t: Thread)
    requires Inv(l) && t in l.closer
    ensures match l.closer[t]
            case Won(To(n)) => n in l.next && n !in l.done && l.wait[n] == Suspended
            case Walking(To(n)) => n in l.next && n !in l.done && l.wait[n] == Suspended
            case AtSchedule(n, _) => n in l.next && n !in l.done && l.wait[n] == Suspended
            case _ => true
  {
    assert WalkAt(l, l.closer[t]);
    if l.todo != [] {
      var n := l.todo[0];
      if n in l.done { ScheduledIsNotListed(l, n); }
      if n !in Joined(l) { OnlyJoinedAreListed(l, n); }
    }
  }

  /** When the walk is over, every node that was pushed has been scheduled, exactly once. */
  lemma WalkCoversAll(l: List, t: Thread)
    requires Inv(l) && t in l.closer && l.closer[t].Done?
    ensures l.done == Reverse(l.joined)
    ensures forall n :: n in l.wait && l.wait[n] == Suspended ==> multiset(l.done)[n] == 1
  {
    assert WalkAt(l, l.closer[t]) && t in l.winner && l.stack == [];
    forall n | n in l.wait && l.wait[n] == Suspended ensures multiset(l.done)[n] == 1 {
      assert n in Joined(l);
      assert multiset(Joined(l))[n] == 1;
    }
  }

  /** At any time a node has been scheduled at most once, and only if it was pushed. */
  lemma ScheduledAtMostOnce(l: List, n: Node)
    requires Inv(l)
    ensures multiset(l.done)[n] <= 1
    ensures n in l.done ==> n in Joined(l)
  {
    assert multiset(Joined(l))[n] <= 1;
    if n in l.done { ScheduledIsNotListed(l, n); }
  }
}
