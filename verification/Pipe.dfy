/**
 The asynchronous pipe: many senders, one receiver, and the hand-off of the receiver's
 coroutine handle through `waiter_`.

 Each load, store, exchange and compare-and-exchange is one step.  A handle put on the
 scheduler is resumed only after `await_suspend` has returned, because the receiver and the
 resumption run on the same scheduler thread.
 */
module PipeProtocol {
  import opened LinkedList
  import opened MpscQueue

  type Item = nat

  datatype Receiver =
    | Idle
    | AtReady          // await_ready: about to look at the queue
    | AtReadyClosed    // saw it empty, about to load closed_
    | AtStore          // await_suspend: about to store the handle in waiter_
    | AtRecheck        // about to look at the queue again
    | AtRecheckClosed  // saw it empty again, about to load closed_
    | AtTakeBack       // about to compare-and-exchange waiter_ back to null
    | Suspended        // await_suspend returned true
    | AtPop            // await_resume: about to load the first link
    | AtAdvance        // pop with a node loaded

  datatype Sender =
    | Out
    | AtPush           // send: saw closed_ false, about to push
    | InPush           // between the two steps of the push
    | AtWake           // about to exchange waiter_ with null
    | AtSchedule       // took the handle, about to put it on the scheduler

  /** Where the receiver's handle is, while somebody is responsible for resuming it. */
  datatype Token = Nowhere | InWaiter | With(t: Thread) | OnScheduler

  /**
   `waiter` says that `waiter_` is not null and `scheduled` counts the resumptions of the
   receiver on the scheduler.  History: `token`, how many suspensions began, and how many
   ended by taking the handle back or by a resumption.
   */
  datatype Pipe = Pipe(
    q: Queue<Item>,
    closed: bool,
    waiter: bool,
    scheduled: nat,
    recv: Receiver,
    send: map<Thread, Sender>,
    token: Token,
    suspensions: nat,
    takenBack: nat,
    resumed: nat)

  // ------------------------------------------------------- receiver steps

  ghost predicate Init(p: Pipe) {
    && p.q == Empty(p.q.head)
    && !p.closed && !p.waiter && p.scheduled == 0 && p.recv == Idle && p.token == Nowhere
    && (forall t :: t in p.send ==> p.send[t] == Out)
    && p.suspensions == p.takenBack == p.resumed == 0
  }

  ghost predicate CallsRecv(p: Pipe, p': Pipe) {
    && p.recv == Idle
    && p' == p.(recv := AtReady)
  }

  ghost predicate Looks(p: Pipe, p': Pipe) {
    && p.recv == AtReady
    && p' == p.(recv := if Reachable(p.q) then AtPop else AtReadyClosed)
  }

  ghost predicate LooksClosed(p: Pipe, p': Pipe) {
    && p.recv == AtReadyClosed
    && p' == p.(recv := if p.closed then AtPop else AtStore)
  }

  ghost predicate StoresHandle(p: Pipe, p': Pipe) {
    && p.recv == AtStore
    && p' == p.(recv := AtRecheck, waiter := true, token := InWaiter, suspensions := p.suspensions + 1)
  }

  ghost predicate LooksAgain(p: Pipe, p': Pipe) {
    && p.recv == AtRecheck
    && p' == p.(recv := if Reachable(p.q) then AtTakeBack else AtRecheckClosed)
  }

  ghost predicate LooksClosedAgain(p: Pipe, p': Pipe) {
    && p.recv == AtRecheckClosed
    && p' == p.(recv := if p.closed then AtTakeBack else Suspended)
  }

  /** The compare-and-exchange: resume inline if the handle is still there, else a sender has it. */
  ghost predicate TakesBack(p: Pipe, p': Pipe) {
    && p.recv == AtTakeBack
    && p' == if p.waiter
             then p.(recv := AtPop, waiter := false, token := Nowhere, takenBack := p.takenBack + 1)
             else p.(recv := Suspended)
  }

  ghost predicate IsResumed(p: Pipe, p': Pipe) {
    && p.recv == Suspended && p.scheduled > 0
    && p' == p.(recv := AtPop, scheduled := p.scheduled - 1, token := Nowhere, resumed := p.resumed + 1)
  }

  /** `pop` loads the first link; nullopt ends the call at once. */
  ghost predicate Pops(p: Pipe, p': Pipe) {
    && p.recv == AtPop && p.q.head in p.q.next
    && var q := LoadNext(p.q);
       p' == p.(q := q, recv := if q.loaded == Nil then Idle else AtAdvance)
  }

  ghost predicate Takes(p: Pipe, p': Pipe) {
    && p.recv == AtAdvance && p.q.loaded.To? && p.q.loaded.node in p.q.value
    && p' == p.(q := Advance(p.q), recv := Idle)
  }

  ghost predicate AwaitStep(p: Pipe, p': Pipe) {
    || CallsRecv(p, p') || Looks(p, p') || LooksClosed(p, p') || StoresHandle(p, p') || LooksAgain(p, p')
    || LooksClosedAgain(p, p') || TakesBack(p, p') || IsResumed(p, p')
  }

  ghost predicate ReceiverStep(p: Pipe, p': Pipe) {
    AwaitStep(p, p') || Pops(p, p') || Takes(p, p')
  }

  // --------------------------------------------------------- sender steps

  /** send: the load of closed_, which returns false if it is set. */
  ghost predicate CallsSend(p: Pipe, p': Pipe, t: Thread) {
    && t in p.send && p.send[t] == Out
    && p' == p.(send := p.send[t := if p.closed then Out else AtPush])
  }

  ghost predicate Pushes(p: Pipe, p': Pipe, t: Thread, n: Node, v: Item) {
    && t in p.send && p.send[t] == AtPush && CanExchange(p.q, t, n)
    && p' == p.(q := Exchange(p.q, t, n, v), send := p.send[t := InPush])
  }

  ghost predicate Links(p: Pipe, p': Pipe, t: Thread) {
    && t in p.send && p.send[t] == InPush && t in p.q.flights
    && p' == p.(q := LinkUp(p.q, t), send := p.send[t := AtWake])
  }

  ghost predicate Closes(p: Pipe, p': Pipe, t: Thread) {
    && t in p.send && p.send[t] == Out
    && p' == p.(closed := true, send := p.send[t := AtWake])
  }

  ghost predicate Wakes(p: Pipe, p': Pipe, t: Thread) {
    && t in p.send && p.send[t] == AtWake
    && p' == if p.waiter
             then p.(waiter := false, send := p.send[t := AtSchedule], token := With(t))
             else p.(send := p.send[t := Out])
  }

  ghost predicate Schedules(p: Pipe, p': Pipe, t: Thread) {
    && t in p.send && p.send[t] == AtSchedule
    && p' == p.(scheduled := p.scheduled + 1, send := p.send[t := Out], token := OnScheduler)
  }

  ghost predicate SenderStep(p: Pipe, p': Pipe, t: Thread) {
    || CallsSend(p, p', t) || (exists n, v :: Pushes(p, p', t, n, v)) || Links(p, p', t)
    || Closes(p, p', t) || Wakes(p, p', t) || Schedules(p, p', t)
  }

  ghost predicate Next(p: Pipe, p': Pipe) {
    ReceiverStep(p, p') || exists t :: SenderStep(p, p', t)
  }

  ghost predicate IsRun(run: seq<Pipe>) {
    && run != []
    && Init(run[0])
    && forall i :: 0 <= i < |run| - 1 ==> Next(run[i], run[i + 1])
  }

  // ------------------------------------------------------------ invariant

  /** The receiver has published its handle and not yet got it back. */
  predicate Published(r: Receiver) {
    r.AtRecheck? || r.AtRecheckClosed? || r.AtTakeBack? || r.Suspended?
  }

  /**
   There is one handle: it is in waiter_, with one sender, or on the scheduler once, exactly while
   it is published.
   */
  ghost predicate TokenInv(p: Pipe) {
    && (Published(p.recv) <==> p.token != Nowhere)
    && (p.waiter <==> p.token == InWaiter)
    && (forall t :: t in p.send ==> (p.send[t] == AtSchedule <==> p.token == With(t)))
    && (p.token.With? ==> p.token.t in p.send)
    && p.scheduled == (if p.token == OnScheduler then 1 else 0)
    && p.suspensions == p.takenBack + p.resumed + (if p.token == Nowhere then 0 else 1)
  }

  ghost predicate QueueInv(p: Pipe) {
    && MpscQueue.Inv(p.q)
    && (p.q.loaded != Nil <==> p.recv == AtAdvance)
    && (forall t :: t in p.q.flights ==> t in p.send && p.send[t] == InPush)
    && (forall t :: t in p.send && p.send[t] == InPush ==> t in p.q.flights)
  }

  ghost predicate SomeoneWillWake(p: Pipe) {
    exists t :: t in p.send && p.send[t] == AtWake
  }

  ghost predicate WakeInv(p: Pipe) {
    && ((p.recv.AtRecheckClosed? || p.recv.Suspended?) && p.waiter && Reachable(p.q) ==> SomeoneWillWake(p))
    && (p.recv == Suspended && p.waiter && p.closed ==> SomeoneWillWake(p))
  }

  ghost predicate Inv(p: Pipe) {
    TokenInv(p) && QueueInv(p) && WakeInv(p)
  }

  lemma PopKeepsInv(p: Pipe, p': Pipe)
    requires Inv(p) && (Pops(p, p') || Takes(p, p'))
    ensures Inv(p')
  {
    hide MpscQueue.Inv;
    hide Reachable;
    if Pops(p, p') { LoadKeepsInv(p.q); } else { AdvanceKeepsInv(p.q); }
  }

  lemma AwaitKeepsToken(p: Pipe, p': Pipe)
    requires TokenInv(p) && AwaitStep(p, p')
    ensures TokenInv(p') && p'.q == p.q && p'.send == p.send && p'.closed == p.closed
  {
    hide Reachable;
  }

  lemma AwaitKeepsWake(p: Pipe, p': Pipe)
    requires WakeInv(p) && AwaitStep(p, p')
    ensures WakeInv(p')
  {
  }

  lemma ReceiverKeepsInv(p: Pipe, p': Pipe)
    requires Inv(p) && ReceiverStep(p, p')
    ensures Inv(p')
  {
    if Pops(p, p') || Takes(p, p') {
      PopKeepsInv(p, p');
    } else {
      hide MpscQueue.Inv;
      hide TokenInv;
      hide WakeInv;
      AwaitKeepsToken(p, p');
      AwaitKeepsWake(p, p');
    }
  }

  lemma PushKeepsInv(p: Pipe, p': Pipe, t: Thread, n: Node, v: Item)
    requires Inv(p) && Pushes(p, p', t, n, v)
    ensures Inv(p')
  {
    hide MpscQueue.Inv;
    hide Reachable;
    ExchangeKeepsInv(p.q, t, n, v);
    if SomeoneWillWake(p) {
      var u :| u in p.send && p.send[u] == AtWake;
      assert p'.send[u] == AtWake;
    }
  }

  lemma LinkStepKeepsInv(p: Pipe, p': Pipe, t: Thread)
    requires Inv(p) && Links(p, p', t)
    ensures Inv(p')
  {
    hide MpscQueue.Inv;
    hide Reachable;
    LinkKeepsInv(p.q, t);
    assert p'.send[t] == AtWake;
  }

  /** The steps of a sender that leave the queue alone. */
  lemma WakeKeepsInv(p: Pipe, p': Pipe, t: Thread)
    requires Inv(p)
    requires CallsSend(p, p', t) || Closes(p, p', t) || Wakes(p, p', t) || Schedules(p, p', t)
    ensures Inv(p')
  {
    hide MpscQueue.Inv;
    hide Reachable;
    hide TokenInv;
    SenderKeepsToken(p, p', t);
    if SomeoneWillWake(p) {
      var u :| u in p.send && p.send[u] == AtWake;
      assert u != t ==> p'.send[u] == AtWake;
    }
    assert Closes(p, p', t) ==> p'.send[t] == AtWake;
  }

  lemma SenderKeepsToken(p: Pipe, p': Pipe, t: Thread)
    requires TokenInv(p)
    requires CallsSend(p, p', t) || Closes(p, p', t) || Wakes(p, p', t) || Schedules(p, p', t)
    ensures TokenInv(p')
  {
  }

  lemma SenderKeepsInv(p: Pipe, p': Pipe, t: Thread)
    requires Inv(p) && SenderStep(p, p', t)
    ensures Inv(p')
  {
    hide Inv;
    if n, v :| Pushes(p, p', t, n, v) {
      PushKeepsInv(p, p', t, n, v);
    } else if Links(p, p', t) {
      LinkStepKeepsInv(p, p', t);
    } else {
      WakeKeepsInv(p, p', t);
    }
  }

  lemma StepKeepsInv(p: Pipe, p': Pipe)
    requires Inv(p) && Next(p, p')
    ensures Inv(p')
  {
    hide Inv;
    if ReceiverStep(p, p') {
      ReceiverKeepsInv(p, p');
    } else {
      var t :| SenderStep(p, p', t);
      SenderKeepsInv(p, p', t);
    }
  }

  lemma {:induction false} RunKeepsInv(run: seq<Pipe>, i: nat)
    requires IsRun(run) && i < |run|
    ensures Inv(run[i])
  {
    if i > 0 {
      RunKeepsInv(run, i - 1);
      hide Inv;
      assert Next(run[i - 1], run[i]);
      StepKeepsInv(run[i - 1], run[i]);
    }
  }

  // --------------------------------------------------------- main results

  /**
   A suspended receiver is never stranded: while nobody is about to resume it its handle is in
   waiter_, and if an item or the end is there to be seen, some sender is about to look for it.
   */
  lemma NeverStranded(run: seq<Pipe>, i: nat)
    requires IsRun(run) && i < |run|
    requires run[i].recv == Suspended && run[i].scheduled == 0
    ensures run[i].waiter || exists t :: t in run[i].send && run[i].send[t] == AtSchedule
    ensures run[i].waiter && (Reachable(run[i].q) || run[i].closed) ==> SomeoneWillWake(run[i])
  {
    RunKeepsInv(run, i);
    hide MpscQueue.Inv;
    var p := run[i];
    if !p.waiter { assert p.send[p.token.t] == AtSchedule; }
  }

  /** Every suspension ends exactly once, inline or by one resumption, and at most one resumption is ever queued. */
  lemma ResumedExactlyOnce(run: seq<Pipe>, i: nat)
    requires IsRun(run) && i < |run|
    ensures var p := run[i];
            && p.scheduled <= 1
            && (p.scheduled == 1 ==> Published(p.recv) && !p.waiter)
            && p.suspensions == p.takenBack + p.resumed + (if Published(p.recv) then 1 else 0)
  {
    RunKeepsInv(run, i);
  }

  /** When every sender has returned, a suspended receiver has missed nothing. */
  lemma QuietMeansDrained(run: seq<Pipe>, i: nat)
    requires IsRun(run) && i < |run|
    requires run[i].recv == Suspended && run[i].scheduled == 0
    requires forall t :: t in run[i].send ==> run[i].send[t] == Out
    ensures !run[i].closed && run[i].q.taken == run[i].q.pushed
  {
    RunKeepsInv(run, i);
    var p := run[i];
    WhenUnreachable(p.q);
    hide MpscQueue.Inv;
    assert !SomeoneWillWake(p);
    assert forall t :: t !in p.q.flights;
    assert forall t :: !NextIsHalfDone(p.q, t);
  }

  /** What is received is what was sent, in the order of the tail exchanges. */
  lemma ReceivedInOrder(run: seq<Pipe>, i: nat)
    requires IsRun(run) && i < |run|
    ensures run[i].q.taken <= run[i].q.pushed
  {
    RunKeepsInv(run, i);
  }

  // ---------------------------------------------- does nullopt mean the end?

  ghost predicate Reaches(p: Pipe) {
    exists run :: IsRun(run) && run[|run| - 1] == p
  }

  lemma Starts(p: Pipe)
    requires Init(p)
    ensures Reaches(p)
  {
    hide Next;
    assert IsRun([p]);
  }

  lemma Extends(p: Pipe, p': Pipe)
    requires Reaches(p) && Next(p, p')
    ensures Reaches(p')
  {
    hide Next;
    var run :| IsRun(run) && run[|run| - 1] == p;
    assert IsRun(run + [p']);
  }

  /** A sender has linked its item and stopped; the receiver has taken the item and called recv again. */
  lemma SenderStopsBeforeWaking() returns (p: Pipe)
    ensures Reaches(p) && MpscQueue.Inv(p.q) && !Reachable(p.q) && p.recv == AtReady
    ensures !p.closed && !p.waiter && p.scheduled == 0 && p.send == map[1 := AtWake] && p.q.taken == p.q.pushed == [7]
  {
    hide MpscQueue.Inv;
    hide Reaches;
    var q0: Queue<Item> := Empty(0);
    var p0 := Pipe(q0, false, false, 0, Idle, map[1 := Out], Nowhere, 0, 0, 0);
    Starts(p0);
    var p2 := BeginsToSend(p0, 1, 1, 7);
    ExchangeKeepsInv(q0, 1, 1, 7);
    p := ItemIsTaken(p2);
  }

  lemma ItemIsTaken(p2: Pipe) returns (p: Pipe)
    requires Reaches(p2) && MpscQueue.Inv(p2.q) && p2.recv == Idle && p2.q == Exchange(Empty(0), 1, 1, 7)
    requires !p2.closed && !p2.waiter && p2.scheduled == 0 && p2.send == map[1 := InPush]
    ensures Reaches(p) && MpscQueue.Inv(p.q) && !Reachable(p.q) && p.recv == AtReady
    ensures !p.closed && !p.waiter && p.scheduled == 0 && p.send == map[1 := AtWake] && p.q.taken == p.q.pushed == [7]
  {
    hide MpscQueue.Inv;
    hide Reaches;
    LinkKeepsInv(p2.q, 1);
    var p3 := p2.(q := LinkUp(p2.q, 1), send := map[1 := AtWake]);
    assert Links(p2, p3, 1) && SenderStep(p2, p3, 1);
    Extends(p2, p3);
    var p4 := p3.(recv := AtReady);
    assert CallsRecv(p3, p4);
    Extends(p3, p4);
    var p5 := p4.(recv := AtPop);
    assert Looks(p4, p5);
    Extends(p4, p5);
    LoadKeepsInv(p5.q);
    var p6 := p5.(q := LoadNext(p5.q), recv := AtAdvance);
    assert Pops(p5, p6);
    Extends(p5, p6);
    AdvanceKeepsInv(p6.q);
    var p7 := p6.(q := Advance(p6.q), recv := Idle);
    assert Takes(p6, p7);
    Extends(p6, p7);
    p := p7.(recv := AtReady);
    assert CallsRecv(p7, p);
    Extends(p7, p);
  }

  /** A receiver that finds nothing suspends. */
  lemma Suspends(a: Pipe) returns (p: Pipe)
    requires Reaches(a) && a.recv == AtReady && !Reachable(a.q) && !a.closed
    ensures Reaches(p)
    ensures p == a.(recv := Suspended, waiter := true, token := InWaiter, suspensions := a.suspensions + 1)
  {
    hide Reaches;
    hide Reachable;
    var b := a.(recv := AtReadyClosed);
    assert Looks(a, b);
    Extends(a, b);
    var c := b.(recv := AtStore);
    assert LooksClosed(b, c);
    Extends(b, c);
    var d := c.(recv := AtRecheck, waiter := true, token := InWaiter, suspensions := c.suspensions + 1);
    assert StoresHandle(c, d);
    Extends(c, d);
    var e := d.(recv := AtRecheckClosed);
    assert LooksAgain(d, e);
    Extends(d, e);
    p := e.(recv := Suspended);
    assert LooksClosedAgain(e, p);
    Extends(e, p);
  }

  lemma WakesIt(f: Pipe, t: Thread) returns (p: Pipe)
    requires Reaches(f) && f.recv == Suspended && f.waiter && f.scheduled == 0 && t in f.send && f.send[t] == AtWake
    ensures Reaches(p) && p.recv == AtPop && p.q == f.q && p.closed == f.closed && p.send == f.send[t := Out]
  {
    hide Reaches;
    hide Reachable;
    var g := f.(waiter := false, send := f.send[t := AtSchedule], token := With(t));
    assert Wakes(f, g, t) && SenderStep(f, g, t);
    Extends(f, g);
    var h := g.(scheduled := 1, send := f.send[t := Out], token := OnScheduler);
    assert Schedules(g, h, t) && SenderStep(g, h, t);
    Extends(g, h);
    p := h.(recv := AtPop, scheduled := 0, token := Nowhere, resumed := h.resumed + 1);
    assert IsResumed(h, p);
    Extends(h, p);
  }

  /**
   With senders interrupted at any point, nullopt does not mean the end: a sender that stopped
   between linking an item and waking can wake a later recv, which then finds the queue empty
   although the pipe is open.
   */
  lemma NulloptOnAnOpenPipe() returns (p: Pipe)
    ensures Reaches(p) && p.recv == AtPop && !Reachable(p.q) && !p.closed && p.q.taken == p.q.pushed
  {
    var a := SenderStopsBeforeWaking();
    var f := Suspends(a);
    p := WakesIt(f, 1);
  }

  /** And so does one whose item is behind that of a sender which stopped inside its push. */
  lemma NulloptBeforeAnItem() returns (p: Pipe)
    ensures Reaches(p) && p.recv == AtPop && !Reachable(p.q) && !p.closed
    ensures p.q.taken == [] && p.q.pushed == [7, 8] && p.send == map[1 := Out, 2 := InPush]
  {
    hide Reaches;
    hide Reachable;
    HalfDoneAhead();
    var p0 := Pipe(Empty(0), false, false, 0, Idle, map[1 := Out, 2 := Out], Nowhere, 0, 0, 0);
    Starts(p0);
    var p1 := BeginsToSend(p0, 2, 1, 7);
    var p2 := BeginsToSend(p1, 1, 2, 8);
    p := OvertakenItem(p2);
  }

  /** The second sender goes on, while the first does not. */
  lemma OvertakenItem(p2: Pipe) returns (p: Pipe)
    requires Reaches(p2) && p2.recv == Idle && !p2.closed && !p2.waiter && p2.scheduled == 0
    requires 1 in p2.q.flights && p2.send == map[1 := InPush, 2 := InPush] && !Reachable(LinkUp(p2.q, 1))
    ensures Reaches(p) && p.recv == AtPop && p.q == LinkUp(p2.q, 1) && !p.closed && p.send == map[1 := Out, 2 := InPush]
  {
    hide Reaches;
    hide Reachable;
    hide LinkUp;
    var p3 := p2.(q := LinkUp(p2.q, 1), send := p2.send[1 := AtWake]);
    assert Links(p2, p3, 1) && SenderStep(p2, p3, 1);
    Extends(p2, p3);
    var p4 := p3.(recv := AtReady);
    assert CallsRecv(p3, p4);
    Extends(p3, p4);
    var f := Suspends(p4);
    p := WakesIt(f, 1);
  }

  lemma HalfDoneAhead()
    ensures var q: Queue<Item> := Empty(0);
            && CanExchange(q, 2, 1) && CanExchange(Exchange(q, 2, 1, 7), 1, 2)
            && var after := LinkUp(Exchange(Exchange(q, 2, 1, 7), 1, 2, 8), 1);
               !Reachable(after) && after.taken == [] && after.pushed == [7, 8]
  {
  }

  /** A sender stops inside its push. */
  lemma BeginsToSend(p: Pipe, t: Thread, n: Node, v: Item) returns (p': Pipe)
    requires Reaches(p) && t in p.send && p.send[t] == Out && !p.closed && CanExchange(p.q, t, n)
    ensures Reaches(p') && p' == p.(q := Exchange(p.q, t, n, v), send := p.send[t := InPush])
  {
    hide Reaches;
    hide Exchange;
    var p1 := p.(send := p.send[t := AtPush]);
    assert CallsSend(p, p1, t) && SenderStep(p, p1, t);
    Extends(p, p1);
    p' := p1.(q := Exchange(p.q, t, n, v), send := p.send[t := InPush]);
    assert Pushes(p1, p', t, n, v) && SenderStep(p1, p', t);
    Extends(p1, p');
  }

  /**
   There are no other ways: `recv` yields nullopt exactly if all is taken or the push whose turn it
   is stopped half way.
   */
  lemma NulloptIff(run: seq<Pipe>, i: nat)
    requires IsRun(run) && i < |run| && run[i].recv == AtPop
    ensures !Reachable(run[i].q) <==> run[i].q.taken == run[i].q.pushed || exists t :: NextIsHalfDone(run[i].q, t)
    ensures forall t | NextIsHalfDone(run[i].q, t) :: t in run[i].send && run[i].send[t] == InPush
  {
    RunKeepsInv(run, i);
    WhenUnreachable(run[i].q);
  }

  /** The wake of a `send` or `close` that the receiver does not interrupt. */
  function Woken(p: Pipe): Pipe {
    if p.waiter then p.(waiter := false, scheduled := p.scheduled + 1, token := OnScheduler) else p
  }

  /** A whole `send`, as when the sender runs on the receiver's scheduler. */
  ghost predicate WholeSend(p: Pipe, p': Pipe, t: Thread, n: Node, v: Item) {
    && t in p.send && p.send[t] == Out && CanExchange(p.q, t, n)
    && p' == if p.closed then p else Woken(p.(q := LinkUp(Exchange(p.q, t, n, v), t)))
  }

  ghost predicate WholeClose(p: Pipe, p': Pipe, t: Thread) {
    && t in p.send && p.send[t] == Out
    && p' == Woken(p.(closed := true))
  }

  ghost predicate WholeNext(p: Pipe, p': Pipe) {
    ReceiverStep(p, p') || (exists t, n, v :: WholeSend(p, p', t, n, v)) || (exists t :: WholeClose(p, p', t))
  }

  ghost predicate IsWholeRun(run: seq<Pipe>) {
    && run != []
    && Init(run[0])
    && forall i :: 0 <= i < |run| - 1 ==> WholeNext(run[i], run[i + 1])
  }

  /** A whole send or close is nothing but the steps of the fine-grained machine taken in a row. */
  lemma WholeIsFine(p: Pipe, p': Pipe)
    requires Reaches(p) && WholeNext(p, p')
    ensures Reaches(p')
  {
    if ReceiverStep(p, p') {
      Extends(p, p');
    } else if t, n, v :| WholeSend(p, p', t, n, v) {
      WholeSendIsFine(p, p', t, n, v);
    } else {
      var t :| WholeClose(p, p', t);
      var p1 := p.(closed := true, send := p.send[t := AtWake]);
      assert Closes(p, p1, t) && SenderStep(p, p1, t);
      Extends(p, p1);
      WakeIsFine(p1, t, p');
    }
  }

  lemma WholeSendIsFine(p: Pipe, p': Pipe, t: Thread, n: Node, v: Item)
    requires Reaches(p) && WholeSend(p, p', t, n, v)
    ensures Reaches(p')
  {
    hide Reaches;
    if !p.closed {
      var p2 := BeginsToSend(p, t, n, v);
      var p3 := p2.(q := LinkUp(p2.q, t), send := p.send[t := AtWake]);
      assert Links(p2, p3, t) && SenderStep(p2, p3, t);
      Extends(p2, p3);
      assert p3.send[t := Out] == p.send;
      WakeIsFine(p3, t, p');
    }
  }

  lemma WakeIsFine(p: Pipe, t: Thread, p': Pipe)
    requires Reaches(p) && t in p.send && p.send[t] == AtWake
    requires p' == Woken(p.(send := p.send[t := Out]))
    ensures Reaches(p')
  {
    hide Reaches;
    if p.waiter {
      var p1 := p.(waiter := false, send := p.send[t := AtSchedule], token := With(t));
      assert Wakes(p, p1, t) && SenderStep(p, p1, t);
      Extends(p, p1);
      assert Schedules(p1, p', t) && SenderStep(p1, p', t);
      Extends(p1, p');
    } else {
      assert Wakes(p, p', t) && SenderStep(p, p', t);
      Extends(p, p');
    }
  }

  /** Whoever is about to pop, or will be, has something to find. */
  ghost predicate EndInv(p: Pipe) {
    && MpscQueue.Inv(p.q) && p.q.flights == map[]
    && (p.scheduled > 0 || p.recv.AtPop? || p.recv.AtTakeBack? ==> Reachable(p.q) || p.closed)
    && (p.q.loaded != Nil <==> p.recv == AtAdvance)
    && (p.scheduled > 0 ==> Published(p.recv))
    && (p.waiter ==> Published(p.recv))
    && (p.waiter ==> p.scheduled == 0) && p.scheduled <= 1
  }

  lemma WholeSendKeepsEnd(p: Pipe, p': Pipe, t: Thread, n: Node, v: Item)
    requires EndInv(p) && WholeSend(p, p', t, n, v)
    ensures EndInv(p')
  {
    hide MpscQueue.Inv;
    if !p.closed {
      ExchangeKeepsInv(p.q, t, n, v);
      var q := Exchange(p.q, t, n, v);
      LinkKeepsInv(q, t);
      assert p'.q == LinkUp(q, t);
      assert p'.q.flights == map[];
      WhenUnreachable(p'.q);
      assert p'.q.pushed != p'.q.taken by { TakenIsShorter(p.q); }
    }
  }

  lemma TakenIsShorter(q: Queue<Item>)
    requires MpscQueue.Inv(q)
    ensures |q.taken| <= |q.pushed|
  {
  }

  lemma AwaitKeepsEnd(p: Pipe, p': Pipe)
    requires EndInv(p) && AwaitStep(p, p')
    ensures EndInv(p')
  {
    hide MpscQueue.Inv;
    hide Reachable;
  }

  lemma PopKeepsEnd(p: Pipe, p': Pipe)
    requires EndInv(p) && (Pops(p, p') || Takes(p, p'))
    ensures EndInv(p')
  {
    hide MpscQueue.Inv;
    if Pops(p, p') { LoadKeepsInv(p.q); } else { AdvanceKeepsInv(p.q); }
  }

  lemma WholeStepKeepsEnd(p: Pipe, p': Pipe)
    requires EndInv(p) && WholeNext(p, p')
    ensures EndInv(p')
  {
    if t, n, v :| WholeSend(p, p', t, n, v) {
      WholeSendKeepsEnd(p, p', t, n, v);
    } else if t :| WholeClose(p, p', t) {
      hide MpscQueue.Inv;
    } else if AwaitStep(p, p') {
      AwaitKeepsEnd(p, p');
    } else {
      PopKeepsEnd(p, p');
    }
  }

  lemma {:induction false} WholeRunKeepsEnd(run: seq<Pipe>, i: nat)
    requires IsWholeRun(run) && i < |run|
    ensures EndInv(run[i])
  {
    if i > 0 {
      WholeRunKeepsEnd(run, i - 1);
      hide EndInv;
      assert WholeNext(run[i - 1], run[i]);
      WholeStepKeepsEnd(run[i - 1], run[i]);
    }
  }

  /** With uninterrupted senders `recv` yields nullopt exactly when the pipe is closed and drained. */
  lemma NulloptMeansEnd(run: seq<Pipe>, i: nat)
    requires IsWholeRun(run) && i < |run| && run[i].recv == AtPop
    ensures !Reachable(run[i].q) <==> (run[i].closed && run[i].q.taken == run[i].q.pushed)
  {
    WholeRunKeepsEnd(run, i);
    WhenUnreachable(run[i].q);
    hide MpscQueue.Inv;
    assert forall t :: !NextIsHalfDone(run[i].q, t);
  }
}
