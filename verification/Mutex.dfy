/**
 The coroutine mutex as a transition system.

 Every atomic operation on `state_` is one step of one coroutine, and so is every
 iteration of the list reversal in `unlock`.  A weak compare-and-exchange may fail
 although the value matches.  An awaiter lives in the frame of the coroutine that
 waits, so a coroutine id also names its awaiter.
 */
module MutexProtocol {

  import opened Collections
  import opened LinkedList

  /** An awaiter is the coroutine whose frame it is in. */
  type Coro = Node

  /** `state_`: the mutex's own address, or the top of the stack of waiters (nullptr = none). */
  datatype Word = Unlocked | Locked(top: Link)

  datatype Pc =
    | Running                             // does not hold the mutex and does not wait for it
    | AtReady                             // await_ready: about to try_lock
    | AtLoad                              // await_suspend: about to load state_
    | AtCas(seen: Word)                   // in the loop of asynclockImpl with oldValue in hand
    | Suspended                           // enqueued; await_suspend returned true
    | Handed                              // given the mutex by an unlock, not yet resumed
    | Owner                               // in the critical section
    | AtLoadState                         // unlock: waiters_ is empty, about to load state_
    | AtRelease                           // unlock: saw nullptr, about to CAS to unlocked
    | AtExchange                          // unlock: about to take the whole stack
    | AtReverse(waiter: Coro, head: Link) // unlock: reversing the stack in place
    | AtPop(head: Link)                   // unlock: about to hand over to head

  /**
   The fields `word`, `waiters` and `next` are the mutex's memory.  The last six
   record history and no step reads them: who holds the mutex, the awaiters on the
   stack (newest first), those still to be reversed (newest first), those in service
   order (oldest first), every successful enqueue, and every hand-over.
   */
  datatype State = State(
    word: Word,
    waiters: Link,
    next: map<Coro, Link>,
    pc: map<Coro, Pc>,
    holder: Link,
    stack: seq<Coro>,
    rev: seq<Coro>,
    fifo: seq<Coro>,
    arrivals: seq<Coro>,
    grants: seq<Coro>)

  /** Everyone enqueued and not yet served, oldest first. */
  function Pending(s: State): (r: seq<Coro>) {
    Reverse(s.rev) + s.fifo + Reverse(s.stack)
  }

  // ---------------------------------------------------------------- steps

  ghost predicate Init(s: State) {
    && s.word == Unlocked
    && s.waiters == Nil
    && s.next.Keys == s.pc.Keys
    && (forall c :: c in s.pc ==> s.pc[c] == Running)
    && s.holder == Nil
    && s.stack == [] && s.rev == [] && s.fifo == [] && s.arrivals == [] && s.grants == []
  }

  ghost predicate CallLock(s: State, s': State, c: Coro) {
    && c in s.pc && s.pc[c] == Running
    && s' == s.(pc := s.pc[c := AtReady])
  }

  /** try_lock: a strong compare-and-exchange from unlocked to nullptr. */
  ghost predicate TryLock(s: State, s': State, c: Coro, failure: Pc) {
    && c in s.pc
    && s' == if s.word == Unlocked
             then s.(word := Locked(Nil), pc := s.pc[c := Owner], holder := To(c))
             else s.(pc := s.pc[c := failure])
  }

  ghost predicate CallTryLock(s: State, s': State, c: Coro) {
    && c in s.pc && s.pc[c] == Running
    && TryLock(s, s', c, Running)
  }

  ghost predicate AwaitReady(s: State, s': State, c: Coro) {
    && c in s.pc && s.pc[c] == AtReady
    && TryLock(s, s', c, AtLoad)
  }

  ghost predicate LoadOld(s: State, s': State, c: Coro) {
    && c in s.pc && s.pc[c] == AtLoad
    && s' == s.(pc := s.pc[c := AtCas(s.word)])
  }

  /** A failed compare-and-exchange reloads oldValue; in the enqueue branch next_ was already written. */
  ghost predicate CasFails(s: State, s': State, c: Coro) {
    && c in s.pc && s.pc[c].AtCas?
    && s' == s.(next := if s.pc[c].seen == Unlocked then s.next else s.next[c := s.pc[c].seen.top],
                pc := s.pc[c := AtCas(s.word)])
  }

  ghost predicate CasAcquires(s: State, s': State, c: Coro) {
    && c in s.pc && s.pc[c] == AtCas(Unlocked)
    && s.word == Unlocked
    && s' == s.(word := Locked(Nil), pc := s.pc[c := Owner], holder := To(c))
  }

  ghost predicate CasEnqueues(s: State, s': State, c: Coro) {
    && c in s.pc && s.pc[c].AtCas? && s.pc[c].seen.Locked?
    && s.word == s.pc[c].seen
    && s' == s.(word := Locked(To(c)),
                next := s.next[c := s.pc[c].seen.top],
                pc := s.pc[c := Suspended],
                stack := [c] + s.stack,
                arrivals := s.arrivals + [c])
  }

  ghost predicate Resume(s: State, s': State, c: Coro) {
    && c in s.pc && s.pc[c] == Handed
    && s' == s.(pc := s.pc[c := Owner])
  }

  ghost predicate CallUnlock(s: State, s': State, c: Coro) {
    && c in s.pc && s.pc[c] == Owner
    && s' == s.(pc := s.pc[c := if s.waiters == Nil then AtLoadState else AtPop(s.waiters)])
  }

  ghost predicate LoadState(s: State, s': State, c: Coro) {
    && c in s.pc && s.pc[c] == AtLoadState
    && s' == s.(pc := s.pc[c := if s.word == Locked(Nil) then AtRelease else AtExchange])
  }

  ghost predicate Release(s: State, s': State, c: Coro) {
    && c in s.pc && s.pc[c] == AtRelease
    && s' == if s.word == Locked(Nil)
             then s.(word := Unlocked, pc := s.pc[c := Running], holder := Nil)
             else s.(pc := s.pc[c := AtExchange])
  }

  /** The exchange itself; AssertsNeverFail says that the pattern on the right never fails. */
  ghost predicate Exchange(s: State, s': State, c: Coro) {
    && c in s.pc && s.pc[c] == AtExchange
    && s.word.Locked? && s.word.top.To?
    && s' == s.(word := Locked(Nil),
                pc := s.pc[c := AtReverse(s.word.top.node, Nil)],
                rev := s.stack,
                stack := [])
  }

  /** One iteration of the reversal loop. */
  ghost predicate ReverseOne(s: State, s': State, c: Coro) {
    && c in s.pc && s.pc[c].AtReverse?
    && var w := s.pc[c].waiter;
    && w in s.next
    && s' == s.(next := s.next[w := s.pc[c].head],
                pc := s.pc[c := match s.next[w]
                                case To(temp) => AtReverse(temp, To(w))
                                case Nil => AtPop(To(w))],
                rev := Tail(s.rev),
                fifo := [w] + s.fifo)
  }

  ghost predicate Pop(s: State, s': State, c: Coro) {
    && c in s.pc && s.pc[c].AtPop? && s.pc[c].head.To?
    && var h := s.pc[c].head.node;
    && h in s.next
    && s' == s.(waiters := s.next[h],
                pc := s.pc[c := Running][h := Handed],
                holder := To(h),
                fifo := Tail(s.fifo),
                grants := s.grants + [h])
  }

  ghost predicate LockStep(s: State, s': State, c: Coro) {
    || CallLock(s, s', c) || CallTryLock(s, s', c) || AwaitReady(s, s', c)
    || LoadOld(s, s', c) || CasFails(s, s', c) || CasAcquires(s, s', c) || CasEnqueues(s, s', c)
  }

  ghost predicate UnlockStep(s: State, s': State, c: Coro) {
    || Resume(s, s', c) || CallUnlock(s, s', c) || LoadState(s, s', c) || Release(s, s', c)
    || Exchange(s, s', c) || ReverseOne(s, s', c) || Pop(s, s', c)
  }

  ghost predicate Step(s: State, s': State, c: Coro) {
    LockStep(s, s', c) || UnlockStep(s, s', c)
  }

  ghost predicate Next(s: State, s': State) {
    exists c :: Step(s, s', c)
  }

  ghost predicate IsRun(run: seq<State>) {
    && run != []
    && Init(run[0])
    && forall i :: 0 <= i < |run| - 1 ==> Next(run[i], run[i + 1])
  }

  // ------------------------------------------------------------ invariant

  predicate Holds(p: Pc) {
    p.Handed? || p.Owner? || p.AtLoadState? || p.AtRelease? || p.AtExchange? || p.AtReverse? || p.AtPop?
  }

  ghost function Waiting(s: State): set<Coro> {
    set c | c in s.pc && s.pc[c] == Suspended
  }

  /** Each suspended awaiter is in exactly one of the three lists, once, and nobody else is in any. */
  ghost predicate PlaceInv(s: State) {
    multiset(s.stack) + multiset(s.rev) + multiset(s.fifo) == multiset(Waiting(s))
  }

  ghost predicate OwnerInv(s: State) {
    && (s.word == Unlocked <==> s.holder == Nil)
    && (s.holder.To? ==> s.holder.node in s.pc)
    && (forall c :: c in s.pc ==> (Holds(s.pc[c]) <==> s.holder == To(c)))
  }

  /** What the pointers look like while the holder is at `p`. */
  ghost predicate ListsAt(s: State, p: Pc) {
    match p
    case Handed | Owner => s.rev == [] && IsList(s.next, s.waiters, s.fifo)
    case AtLoadState | AtRelease => s.rev == [] && s.waiters == Nil && s.fifo == []
    case AtExchange => s.rev == [] && s.waiters == Nil && s.fifo == [] && s.stack != []
    case AtReverse(w, h) => s.waiters == Nil && s.rev != [] && IsList(s.next, To(w), s.rev) && IsList(s.next, h, s.fifo)
    case AtPop(h) => s.rev == [] && s.fifo != [] && IsList(s.next, h, s.fifo)
    case _ => true
  }

  ghost predicate ListInv(s: State) {
    && s.next.Keys == s.pc.Keys
    && (s.word == Unlocked ==> s.stack == [] && s.rev == [] && s.fifo == [] && s.waiters == Nil)
    && (s.word.Locked? ==> IsList(s.next, s.word.top, s.stack))
    && (s.holder.To? && s.holder.node in s.pc ==> ListsAt(s, s.pc[s.holder.node]))
  }

  ghost predicate OrderInv(s: State) {
    s.arrivals == s.grants + Pending(s)
  }

  ghost predicate Inv(s: State) {
    OwnerInv(s) && ListInv(s) && PlaceInv(s) && OrderInv(s)
  }

  // ---------------------------------------------------------------- proof

  lemma InitInv(s: State)
    requires Init(s)
    ensures Inv(s)
  {
  }

  /** A coroutine moves between two program points at which it neither holds nor waits. */
  lemma OutsiderMoves(s: State, c: Coro, p: Pc)
    requires Inv(s) && c in s.pc
    requires !Holds(s.pc[c]) && !Holds(p) && s.pc[c] != Suspended && p != Suspended
    ensures Inv(s.(pc := s.pc[c := p]))
  {
    hide IsList;
    hide PlaceInv;
    hide OrderInv;
    assert Waiting(s.(pc := s.pc[c := p])) == Waiting(s);
    SamePlaces(s, s.(pc := s.pc[c := p]));
  }

  /** The holder moves between two program points with the lists in the shape the new one expects. */
  /** What is said of places and order depends on the lists and on who is suspended. */
  lemma SamePlaces(s: State, s': State)
    requires PlaceInv(s) && OrderInv(s) && Waiting(s') == Waiting(s)
    requires s'.stack == s.stack && s'.rev == s.rev && s'.fifo == s.fifo
    requires s'.arrivals == s.arrivals && s'.grants == s.grants
    ensures PlaceInv(s') && OrderInv(s')
  {
    hide Waiting;
  }

  lemma HolderMoves(s: State, c: Coro, p: Pc)
    requires Inv(s) && c in s.pc
    requires Holds(s.pc[c]) && Holds(p) && ListsAt(s, p)
    ensures Inv(s.(pc := s.pc[c := p]))
  {
    hide IsList;
    hide PlaceInv;
    hide OrderInv;
    assert Waiting(s.(pc := s.pc[c := p])) == Waiting(s);
    SamePlaces(s, s.(pc := s.pc[c := p]));
  }

  lemma AcquireKeepsInv(s: State, s': State, c: Coro)
    requires Inv(s) && c in s.pc && s.word == Unlocked && s.pc[c] != Suspended
    requires s' == s.(word := Locked(Nil), pc := s.pc[c := Owner], holder := To(c))
    ensures Inv(s')
  {
  }

  lemma ReleaseKeepsInv(s: State, s': State, c: Coro)
    requires Inv(s) && c in s.pc && s.word == Locked(Nil) && s.pc[c] == AtRelease
    requires s' == s.(word := Unlocked, pc := s.pc[c := Running], holder := Nil)
    ensures Inv(s')
  {
  }

  lemma OnlyWaitersAreListed(s: State, c: Coro)
    requires PlaceInv(s) && c !in Waiting(s)
    ensures c !in s.stack && c !in s.rev && c !in s.fifo
  {
    assert c !in multiset(Waiting(s));
  }

  lemma RewriteKeepsLists(s: State, l: Link, c: Coro)
    requires ListInv(s) && c in s.pc && c !in s.stack && c !in s.rev && c !in s.fifo
    ensures ListInv(s.(next := s.next[c := l]))
  {
    hide IsList;
    var next := s.next[c := l];
    assert next.Keys == s.next.Keys;
    if s.word.Locked? { WriteOutside(s.next, next, c, s.word.top, s.stack); }
    if s.holder.To? && s.holder.node in s.pc {
      match s.pc[s.holder.node]
      case Handed | Owner => WriteOutside(s.next, next, c, s.waiters, s.fifo);
      case AtReverse(w, h) => WriteOutside(s.next, next, c, To(w), s.rev); WriteOutside(s.next, next, c, h, s.fifo);
      case AtPop(h) => WriteOutside(s.next, next, c, h, s.fifo);
      case _ =>
    }
  }

  lemma RewriteKeepsInv(s: State, l: Link, c: Coro)
    requires Inv(s) && c in s.pc && s.pc[c] != Suspended
    ensures Inv(s.(next := s.next[c := l]))
  {
    hide ListInv;
    hide PlaceInv;
    hide OrderInv;
    OnlyWaitersAreListed(s, c);
    var s' := s.(next := s.next[c := l]);
    assert Waiting(s') == Waiting(s);
    SamePlaces(s, s');
    RewriteKeepsLists(s, l, c);
  }

  lemma EnqueueKeepsPlaces(s: State, s': State, c: Coro)
    requires PlaceInv(s) && OrderInv(s) && CasEnqueues(s, s', c)
    ensures PlaceInv(s') && OrderInv(s')
  {
    assert Waiting(s') == Waiting(s) + {c};
    assert multiset(Waiting(s')) == multiset(Waiting(s)) + multiset{c};
    assert s'.stack[1..] == s.stack;
    assert Pending(s') == Pending(s) + [c];
  }

  lemma EnqueueKeepsInv(s: State, s': State, c: Coro)
    requires Inv(s) && CasEnqueues(s, s', c)
    ensures Inv(s')
  {
    EnqueueKeepsPlaces(s, s', c);
    EnqueueKeepsLists(s, s', c);
    hide ListInv;
    hide PlaceInv;
    hide OrderInv;
  }

  lemma EnqueueKeepsLists(s: State, s': State, c: Coro)
    requires Inv(s) && CasEnqueues(s, s', c)
    ensures ListInv(s')
  {
    hide IsList;
    var s0 := s.(next := s'.next);
    RewriteKeepsInv(s, s.pc[c].seen.top, c);
    OnlyWaitersAreListed(s, c);
    hide PlaceInv;
    hide OrderInv;
    PushOnList(s.next, s.word.top, s.stack, c);
    assert ListsAt(s0, s0.pc[s.holder.node]);
  }

  lemma ExchangeKeepsInv(s: State, s': State, c: Coro)
    requires Inv(s) && Exchange(s, s', c)
    ensures Inv(s')
  {
    assert ListsAt(s, s.pc[c]);
    assert Waiting(s') == Waiting(s);
    assert Pending(s') == Pending(s);
  }

  /** The node being moved is in no list but the one it heads, and in that one once. */
  lemma HolderLists(s: State, c: Coro)
    requires OwnerInv(s) && ListInv(s) && c in s.pc && Holds(s.pc[c])
    ensures ListsAt(s, s.pc[c])
  {
    hide ListsAt;
  }

  lemma ReversedNodeIsAlone(s: State, c: Coro)
    requires Inv(s) && c in s.pc && s.pc[c].AtReverse?
    ensures var w := s.pc[c].waiter; s.rev == [w] + Tail(s.rev) && w !in Tail(s.rev) && w !in s.stack && w !in s.fifo
  {
    hide ListInv;
    hide OwnerInv;
    hide OrderInv;
    hide Waiting;
    HolderLists(s, c);
    var w := s.pc[c].waiter;
    assert s.rev == [w] + Tail(s.rev);
    AloneIn(s.stack, w, Tail(s.rev), s.fifo, Waiting(s));
  }

  lemma AloneIn(stack: seq<Coro>, w: Coro, rest: seq<Coro>, fifo: seq<Coro>, waiting: set<Coro>)
    requires multiset(stack) + multiset([w] + rest) + multiset(fifo) == multiset(waiting)
    ensures w !in rest && w !in stack && w !in fifo
  {
    assert multiset([w] + rest) == multiset{w} + multiset(rest);
    assert multiset(waiting)[w] <= 1;
    assert multiset(rest)[w] == 0 && multiset(stack)[w] == 0 && multiset(fifo)[w] == 0;
  }

  lemma ReverseOneKeepsLists(s: State, s': State, c: Coro)
    requires Inv(s) && ReverseOne(s, s', c)
    ensures ListInv(s')
  {
    var w, h := s.pc[c].waiter, s.pc[c].head;
    ReversedNodeIsAlone(s, c);
    assert ListsAt(s, s.pc[c]);
    WriteOutside(s.next, s.next[w := h], w, s.word.top, s.stack);
    PopOffList(s.next, s.rev);
    WriteOutside(s.next, s.next[w := h], w, s.next[w], s'.rev);
    PushOnList(s.next, h, s.fifo, w);
    assert (s'.rev == [] <==> s.next[w] == Nil) by { assert s.next[w] == At(s'.rev, 0); }
    hide IsList;
    hide PlaceInv;
    hide OrderInv;
    assert ListsAt(s', s'.pc[c]);
  }

  lemma ReverseOneKeepsPlaces(s: State, s': State, c: Coro)
    requires PlaceInv(s) && OrderInv(s) && ReverseOne(s, s', c)
    requires s.rev == [s.pc[c].waiter] + Tail(s.rev)
    ensures PlaceInv(s') && OrderInv(s')
  {
    var w := s.pc[c].waiter;
    assert Waiting(s') == Waiting(s);
    assert multiset(s.rev) == multiset{w} + multiset(s'.rev);
    assert multiset(s'.fifo) == multiset{w} + multiset(s.fifo);
    assert multiset(s'.rev) + multiset(s'.fifo) == multiset(s.rev) + multiset(s.fifo);
    assert Pending(s') == Pending(s);
  }

  lemma ReverseOneKeepsInv(s: State, s': State, c: Coro)
    requires Inv(s) && ReverseOne(s, s', c)
    ensures Inv(s')
  {
    ReverseOneKeepsLists(s, s', c);
    ReversedNodeIsAlone(s, c);
    ReverseOneKeepsPlaces(s, s', c);
    hide ListInv;
    hide PlaceInv;
    hide OrderInv;
  }

  /** The awaiter about to be served is suspended. */
  lemma HeadWaits(s: State, c: Coro)
    requires Inv(s) && c in s.pc && s.pc[c].AtPop?
    ensures s.fifo != [] && s.pc[c].head == To(s.fifo[0]) && s.fifo[0] in Waiting(s)
  {
    assert ListsAt(s, s.pc[c]);
    if s.fifo[0] !in Waiting(s) { OnlyWaitersAreListed(s, s.fifo[0]); }
  }

  lemma PopKeepsLists(s: State, s': State, c: Coro)
    requires Inv(s) && Pop(s, s', c)
    ensures ListInv(s') && OwnerInv(s')
  {
    HeadWaits(s, c);
    assert ListsAt(s, s.pc[c]);
    PopOffList(s.next, s.fifo);
    hide IsList;
    hide PlaceInv;
    hide OrderInv;
  }

  lemma PopKeepsPlaces(s: State, s': State, c: Coro)
    requires PlaceInv(s) && Pop(s, s', c)
    requires s.fifo != [] && s.pc[c].head == To(s.fifo[0]) && s.fifo[0] in Waiting(s)
    ensures PlaceInv(s')
  {
    var h := s.fifo[0];
    TakeOut(Waiting(s), h);
    assert Waiting(s') == Waiting(s) - {h};
    assert s.fifo == [h] + s'.fifo;
    TakeAway(multiset(s.stack) + multiset(s.rev), multiset(s'.fifo), multiset(Waiting(s')), h);
  }

  lemma PopKeepsOrder(s: State, s': State, c: Coro)
    requires OrderInv(s) && Pop(s, s', c)
    requires s.rev == [] && s.fifo != [] && s.pc[c].head == To(s.fifo[0])
    ensures OrderInv(s')
  {
  }

  lemma PopKeepsInv(s: State, s': State, c: Coro)
    requires Inv(s) && Pop(s, s', c)
    ensures Inv(s')
  {
    PopKeepsLists(s, s', c);
    HeadWaits(s, c);
    PopKeepsPlaces(s, s', c);
    assert s.rev == [] by { assert ListsAt(s, s.pc[c]); }
    PopKeepsOrder(s, s', c);
    hide ListInv;
    hide PlaceInv;
    hide OrderInv;
  }

  lemma LockKeepsInv(s: State, s': State, c: Coro)
    requires Inv(s) && LockStep(s, s', c)
    ensures Inv(s')
  {
    hide Inv;
    if CasEnqueues(s, s', c) {
      EnqueueKeepsInv(s, s', c);
    } else if s'.pc[c] == Owner {
      AcquireKeepsInv(s, s', c);
    } else if CasFails(s, s', c) {
      var seen := s.pc[c].seen;
      var s0 := if seen == Unlocked then s else s.(next := s.next[c := seen.top]);
      if seen.Locked? { RewriteKeepsInv(s, seen.top, c); }
      OutsiderMoves(s0, c, AtCas(s.word));
    } else {
      OutsiderMoves(s, c, s'.pc[c]);
    }
  }

  /** The steps of `unlock` that move neither the word nor a list. */
  lemma BookkeepingKeepsInv(s: State, s': State, c: Coro)
    requires Inv(s)
    requires Resume(s, s', c) || CallUnlock(s, s', c) || LoadState(s, s', c)
             || (Release(s, s', c) && s.word != Locked(Nil))
    ensures Inv(s')
  {
    assert s.holder == To(c) && s.word.Locked? && ListsAt(s, s.pc[c]);
    assert s.word.top != Nil ==> s.stack != [];
    hide Inv;
    hide IsList;
    HolderMoves(s, c, s'.pc[c]);
  }

  lemma UnlockKeepsInv(s: State, s': State, c: Coro)
    requires Inv(s) && UnlockStep(s, s', c)
    ensures Inv(s')
  {
    hide Inv;
    if Pop(s, s', c) {
      PopKeepsInv(s, s', c);
    } else if ReverseOne(s, s', c) {
      ReverseOneKeepsInv(s, s', c);
    } else if Exchange(s, s', c) {
      ExchangeKeepsInv(s, s', c);
    } else if Release(s, s', c) && s.word == Locked(Nil) {
      ReleaseKeepsInv(s, s', c);
    } else {
      BookkeepingKeepsInv(s, s', c);
    }
  }

  lemma StepKeepsInv(s: State, s': State)
    requires Inv(s) && Next(s, s')
    ensures Inv(s')
  {
    var c :| Step(s, s', c);
    if LockStep(s, s', c) { LockKeepsInv(s, s', c); } else { UnlockKeepsInv(s, s', c); }
  }

  lemma {:induction false} RunKeepsInv(run: seq<State>, i: nat)
    requires IsRun(run) && i < |run|
    ensures Inv(run[i])
  {
    if i == 0 {
      InitInv(run[0]);
    } else {
      RunKeepsInv(run, i - 1);
      StepKeepsInv(run[i - 1], run[i]);
    }
  }

  // --------------------------------------------------------- main results

  /** In every state of every run at most one coroutine holds the mutex, and none if it is unlocked. */
  lemma MutualExclusion(run: seq<State>, i: nat, c: Coro, d: Coro)
    requires IsRun(run) && i < |run|
    requires c in run[i].pc && d in run[i].pc && Holds(run[i].pc[c]) && Holds(run[i].pc[d])
    ensures c == d && run[i].word != Unlocked
  {
    RunKeepsInv(run, i);
  }

  /** The four asserts of `unlock`, each at the program point where it stands. */
  ghost predicate AssertsHold(s: State, p: Pc) {
    && (p == Owner ==> s.word != Unlocked)
    && (p == AtExchange ==> s.word != Unlocked && s.word != Locked(Nil))
    && (p.AtPop? ==> p.head != Nil)
  }

  /** No assert of `unlock` fails, and the code is never stuck: only a suspended awaiter has no next step. */
  lemma AssertsNeverFail(run: seq<State>, i: nat, c: Coro)
    requires IsRun(run) && i < |run| && c in run[i].pc
    ensures AssertsHold(run[i], run[i].pc[c])
    ensures run[i].pc[c] != Suspended ==> exists s' :: Step(run[i], s', c)
  {
    RunKeepsInv(run, i);
    if run[i].pc[c] != Suspended { var s' := CanStep(run[i], c); }
  }

  lemma CanStep(s: State, c: Coro) returns (s': State)
    requires Inv(s) && c in s.pc && s.pc[c] != Suspended
    ensures Step(s, s', c)
  {
    match s.pc[c]
    case Running => s' := s.(pc := s.pc[c := AtReady]); assert CallLock(s, s', c);
    case AtReady =>
      s' := if s.word == Unlocked then s.(word := Locked(Nil), pc := s.pc[c := Owner], holder := To(c))
            else s.(pc := s.pc[c := AtLoad]);
      assert AwaitReady(s, s', c);
    case AtLoad => s' := s.(pc := s.pc[c := AtCas(s.word)]); assert LoadOld(s, s', c);
    case AtCas(seen) =>
      s' := s.(next := if seen == Unlocked then s.next else s.next[c := seen.top], pc := s.pc[c := AtCas(s.word)]);
      assert CasFails(s, s', c);
    case _ => s' := CanStepInUnlock(s, c);
  }

  lemma CanStepInUnlock(s: State, c: Coro) returns (s': State)
    requires Inv(s) && c in s.pc && Holds(s.pc[c])
    ensures UnlockStep(s, s', c)
  {
    assert ListsAt(s, s.pc[c]);
    match s.pc[c]
    case Handed => s' := s.(pc := s.pc[c := Owner]);
    case Owner => s' := s.(pc := s.pc[c := if s.waiters == Nil then AtLoadState else AtPop(s.waiters)]);
    case AtLoadState => s' := s.(pc := s.pc[c := if s.word == Locked(Nil) then AtRelease else AtExchange]);
    case AtRelease =>
      s' := if s.word == Locked(Nil) then s.(word := Unlocked, pc := s.pc[c := Running], holder := Nil)
            else s.(pc := s.pc[c := AtExchange]);
    case AtExchange =>
      s' := s.(word := Locked(Nil), pc := s.pc[c := AtReverse(s.word.top.node, Nil)], rev := s.stack, stack := []);
    case AtReverse(w, h) =>
      s' := s.(next := s.next[w := h],
               pc := s.pc[c := match s.next[w] case To(temp) => AtReverse(temp, To(w)) case Nil => AtPop(To(w))],
               rev := Tail(s.rev), fifo := [w] + s.fifo);
      assert ReverseOne(s, s', c);
    case AtPop(head) =>
      HeadWaits(s, c);
      var h := head.node;
      s' := s.(waiters := s.next[h], pc := s.pc[c := Running][h := Handed], holder := To(h),
               fifo := Tail(s.fifo), grants := s.grants + [h]);
      assert Pop(s, s', c);
  }

  /**
   In every state of every run each suspended awaiter is waiting in exactly one place,
   everyone else in none, and hand-overs happen exactly once per successful enqueue.
   */
  lemma SuspendedExactlyOnce(run: seq<State>, i: nat, c: Coro)
    requires IsRun(run) && i < |run| && c in run[i].pc
    ensures var s := run[i]; var waits := if s.pc[c] == Suspended then 1 else 0;
            && multiset(s.stack)[c] + multiset(s.rev)[c] + multiset(s.fifo)[c] == waits
            && multiset(s.arrivals)[c] == multiset(s.grants)[c] + waits
  {
    RunKeepsInv(run, i);
    var s := run[i];
    ReverseKeepsElements(s.rev);
    ReverseKeepsElements(s.stack);
    hide ListInv;
    assert multiset(Pending(s)) == multiset(Waiting(s));
    assert multiset(Waiting(s))[c] == if c in Waiting(s) then 1 else 0;
  }

  /** The k-th hand-over goes to the coroutine whose enqueue was the k-th to succeed. */
  lemma FirstComeFirstServed(run: seq<State>, i: nat)
    requires IsRun(run) && i < |run|
    ensures run[i].grants <= run[i].arrivals
    ensures run[i].arrivals == run[i].grants + Pending(run[i])
  {
    RunKeepsInv(run, i);
  }

  /** A coroutine comes to hold the mutex in one of two ways. */
  lemma HowAcquired(s: State, s': State, c: Coro, d: Coro)
    requires Inv(s) && Step(s, s', d) && c in s.pc && !Holds(s.pc[c]) && c in s'.pc && Holds(s'.pc[c])
    ensures || (s.pc[c] != Suspended && s.word == Unlocked)
            || (Pop(s, s', d) && s.pc[d].head == To(c))
  {
    hide ListInv;
    hide PlaceInv;
    hide OrderInv;
    assert s.holder != To(c);
    assert Holds(s.pc[d]) ==> s.holder == To(d);
  }

  /**
   Nobody takes the mutex past the queue: a compare-and-exchange acquires only when no
   awaiter is unserved, and a hand-over goes to the oldest one.
   */
  lemma NoBarging(run: seq<State>, i: nat, c: Coro)
    requires IsRun(run) && i + 1 < |run| && c in run[i].pc
    requires !Holds(run[i].pc[c]) && c in run[i + 1].pc && Holds(run[i + 1].pc[c])
    ensures run[i].pc[c] != Suspended ==> run[i].arrivals == run[i].grants
    ensures run[i].pc[c] == Suspended ==> [c] <= Pending(run[i]) && run[i + 1].grants == run[i].grants + [c]
  {
    RunKeepsInv(run, i);
    var s, s' := run[i], run[i + 1];
    assert Next(s, s');
    var d :| Step(s, s', d);
    HowAcquired(s, s', c, d);
    if s.word != Unlocked {
      HeadWaits(s, d);
      assert ListsAt(s, s.pc[d]);
      assert Pending(s) == s.fifo + Reverse(s.stack);
    }
  }

  /** An unlocked mutex has served everyone, and its memory is as the destructor asserts. */
  lemma UnlockedMeansServed(run: seq<State>, i: nat)
    requires IsRun(run) && i < |run| && run[i].word == Unlocked
    ensures run[i].arrivals == run[i].grants && run[i].waiters == Nil
    ensures forall c :: c in run[i].pc ==> run[i].pc[c] != Suspended
  {
    RunKeepsInv(run, i);
    var s := run[i];
    forall c | c in s.pc ensures s.pc[c] != Suspended {
      SuspendedExactlyOnce(run, i, c);
    }
  }
}
