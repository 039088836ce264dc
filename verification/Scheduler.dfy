/**
 The event loop and cross-thread wakeup.

 The loop thread alternates between draining the two queues, sleeping in `epoll_wait`,
 and running handlers, timers and tasks, all of which may push to the queues from the
 loop thread itself.  Any other thread that calls `schedule` or `schedule_at` pushes in
 two steps and then writes to the eventfd in a third.  A push by the loop thread is not
 followed by a write.
 */
module SchedulerLoop {
  import opened LinkedList
  import opened MpscQueue

  type Task = nat

  /** The loop's own thread. */
  const LOOP: Thread := 0

  /** `readyQueue_` and `pendingTimers_`. */
  datatype Which = Ready | Timed

  datatype Phase =
    | AtTimeout              // get_next_timeout: popping pendingTimers_
    | AtTimeoutPop           // the same, with a node loaded
    | Asleep                 // in epoll_wait
    | AtEvents(woken: bool)  // handling the reported events; woken: the eventfd is among those left
    | AtTimers               // process_timers
    | AtDrain                // process_ready_queue, or the body of a task
    | AtDrainPop             // the same, with a node loaded

  /** `owing` holds the foreign threads that have linked a node and not yet written to the eventfd. */
  datatype Loop = Loop(
    ready: Queue<Task>,
    timed: Queue<Task>,
    eventfd: nat,
    phase: Phase,
    owing: set<Thread>,
    ran: seq<Task>)

  function Get(l: Loop, w: Which): Queue<Task> {
    if w.Ready? then l.ready else l.timed
  }

  function Put(l: Loop, w: Which, q: Queue<Task>): Loop {
    if w.Ready? then l.(ready := q) else l.(timed := q)
  }

  // ---------------------------------------------------------------- steps

  ghost predicate Init(l: Loop) {
    l == Loop(Empty(l.ready.head), Empty(l.timed.head), 0, AtTimeout, {}, [])
  }

  /** The loop thread runs user code: handlers, expired timers, tasks. */
  predicate Busy(p: Phase) {
    p.AtEvents? || p.AtTimers? || p.AtDrain?
  }

  ghost predicate MayPush(l: Loop, t: Thread) {
    && t !in l.ready.flights && t !in l.timed.flights && t !in l.owing
    && (t == LOOP ==> Busy(l.phase))
  }

  ghost predicate PushStarts(l: Loop, l': Loop, t: Thread, w: Which, n: Node, v: Task) {
    && MayPush(l, t) && CanExchange(Get(l, w), t, n)
    && l' == Put(l, w, Exchange(Get(l, w), t, n, v))
  }

  /** The second step of a push; a foreign thread now owes a wakeup. */
  ghost predicate PushLinks(l: Loop, l': Loop, t: Thread, w: Which) {
    && t in Get(l, w).flights
    && l' == Put(l, w, LinkUp(Get(l, w), t)).(owing := if t == LOOP then l.owing else l.owing + {t})
  }

  ghost predicate Wakes(l: Loop, l': Loop, t: Thread) {
    && t in l.owing
    && l' == l.(eventfd := l.eventfd + 1, owing := l.owing - {t})
  }

  /** The loop thread moves on only when it is not itself inside a push. */
  ghost predicate LoopFree(l: Loop) {
    LOOP !in l.ready.flights && LOOP !in l.timed.flights
  }

  ghost predicate LoadsTimer(l: Loop, l': Loop) {
    && l.phase == AtTimeout && l.timed.head in l.timed.next
    && var q := LoadNext(l.timed);
       l' == l.(timed := q, phase := if q.loaded == Nil then Asleep else AtTimeoutPop)
  }

  ghost predicate PopsTimer(l: Loop, l': Loop) {
    && l.phase == AtTimeoutPop && l.timed.loaded.To? && l.timed.loaded.node in l.timed.value
    && l' == l.(timed := Advance(l.timed), phase := AtTimeout)
  }

  /** `epoll_wait` returns: a timeout, other descriptors, or the eventfd, which it reports only if it is readable. */
  ghost predicate Returns(l: Loop, l': Loop, woken: bool) {
    && l.phase == Asleep && (woken ==> l.eventfd > 0)
    && l' == l.(phase := AtEvents(woken))
  }

  ghost predicate ReadsEventfd(l: Loop, l': Loop) {
    && l.phase == AtEvents(true) && LoopFree(l)
    && l' == l.(eventfd := 0, phase := AtEvents(false))
  }

  ghost predicate FinishesEvents(l: Loop, l': Loop) {
    && l.phase == AtEvents(false) && LoopFree(l)
    && l' == l.(phase := AtTimers)
  }

  ghost predicate FinishesTimers(l: Loop, l': Loop) {
    && l.phase == AtTimers && LoopFree(l)
    && l' == l.(phase := AtDrain)
  }

  ghost predicate LoadsTask(l: Loop, l': Loop) {
    && l.phase == AtDrain && LoopFree(l) && l.ready.head in l.ready.next
    && var q := LoadNext(l.ready);
       l' == l.(ready := q, phase := if q.loaded == Nil then AtTimeout else AtDrainPop)
  }

  ghost predicate RunsTask(l: Loop, l': Loop) {
    && l.phase == AtDrainPop && l.ready.loaded.To? && l.ready.loaded.node in l.ready.value
    && l' == l.(ready := Advance(l.ready), phase := AtDrain, ran := l.ran + [l.ready.value[l.ready.loaded.node]])
  }

  ghost predicate LoopStep(l: Loop, l': Loop) {
    || LoadsTimer(l, l') || PopsTimer(l, l') || Returns(l, l', true) || Returns(l, l', false)
    || ReadsEventfd(l, l') || FinishesEvents(l, l') || FinishesTimers(l, l') || LoadsTask(l, l') || RunsTask(l, l')
  }

  ghost predicate Next(l: Loop, l': Loop) {
    || LoopStep(l, l')
    || (exists t, w, n, v :: PushStarts(l, l', t, w, n, v))
    || (exists t, w :: PushLinks(l, l', t, w))
    || (exists t :: Wakes(l, l', t))
  }

  ghost predicate IsRun(run: seq<Loop>) {
    && run != []
    && Init(run[0])
    && forall i :: 0 <= i < |run| - 1 ==> Next(run[i], run[i + 1])
  }

  // ------------------------------------------------------------ invariant

  /** A wakeup is in the eventfd or on its way there. */
  predicate WakeupComing(l: Loop) {
    l.eventfd > 0 || l.owing != {}
  }

  /** The loop has seen the ready queue empty and will sleep before it looks again. */
  predicate PastReady(p: Phase) {
    p.AtTimeout? || p.AtTimeoutPop? || p.Asleep?
  }

  ghost predicate ThreadInv(l: Loop) {
    && LOOP !in l.owing
    && (forall t :: t in l.ready.flights ==> t !in l.timed.flights && t !in l.owing)
    && (forall t :: t in l.timed.flights ==> t !in l.owing)
    && (!Busy(l.phase) ==> LoopFree(l))
    && (l.ready.loaded != Nil <==> l.phase == AtDrainPop)
    && (l.timed.loaded != Nil <==> l.phase == AtTimeoutPop)
  }

  ghost predicate WakeInv(l: Loop) {
    && (PastReady(l.phase) && Reachable(l.ready) ==> WakeupComing(l))
    && (l.phase == Asleep && Reachable(l.timed) ==> WakeupComing(l))
  }

  ghost predicate Inv(l: Loop) {
    && MpscQueue.Inv(l.ready) && MpscQueue.Inv(l.timed)
    && ThreadInv(l) && WakeInv(l)
    && l.ran == l.ready.taken
  }

  lemma PushStartKeepsInv(l: Loop, l': Loop, t: Thread, w: Which, n: Node, v: Task)
    requires Inv(l) && PushStarts(l, l', t, w, n, v)
    ensures Inv(l')
  {
    hide MpscQueue.Inv;
    hide Reachable;
    ExchangeKeepsInv(Get(l, w), t, n, v);
  }

  lemma PushLinkKeepsInv(l: Loop, l': Loop, t: Thread, w: Which)
    requires Inv(l) && PushLinks(l, l', t, w)
    ensures Inv(l')
  {
    hide MpscQueue.Inv;
    hide Reachable;
    LinkKeepsInv(Get(l, w), t);
  }

  lemma LoopStepKeepsInv(l: Loop, l': Loop)
    requires Inv(l) && LoopStep(l, l')
    ensures Inv(l')
  {
    hide MpscQueue.Inv;
    if LoadsTimer(l, l') { LoadKeepsInv(l.timed); }
    if LoadsTask(l, l') { LoadKeepsInv(l.ready); }
    if PopsTimer(l, l') { AdvanceKeepsInv(l.timed); }
    if RunsTask(l, l') { AdvanceKeepsInv(l.ready); }
  }

  lemma StepKeepsInv(l: Loop, l': Loop)
    requires Inv(l) && Next(l, l')
    ensures Inv(l')
  {
    if LoopStep(l, l') {
      LoopStepKeepsInv(l, l');
    } else if t, w, n, v :| PushStarts(l, l', t, w, n, v) {
      PushStartKeepsInv(l, l', t, w, n, v);
    } else if t, w :| PushLinks(l, l', t, w) {
      PushLinkKeepsInv(l, l', t, w);
    }
  }

  lemma {:induction false} RunKeepsInv(run: seq<Loop>, i: nat)
    requires IsRun(run) && i < |run|
    ensures Inv(run[i])
  {
    if i > 0 {
      RunKeepsInv(run, i - 1);
      hide Inv;
      assert Next(run[i - 1], run[i]);
      StepKeepsInv(run[i - 1], run[i]);
    }
  }

  // --------------------------------------------------------- main results

  /**
   No task is lost to sleep.  If the loop sleeps, the eventfd counter is zero and a task or
   timer could be popped, then some foreign thread has linked its node and is about to write.
   */
  lemma NoTaskLostToSleep(run: seq<Loop>, i: nat)
    requires IsRun(run) && i < |run|
    requires run[i].phase == Asleep && run[i].eventfd == 0
    requires Reachable(run[i].ready) || Reachable(run[i].timed)
    ensures exists t :: t != LOOP && t in run[i].owing
  {
    RunKeepsInv(run, i);
    var t :| t in run[i].owing;
  }

  /**
   The loop sleeps only when it has nothing to do: if it is asleep with a zero counter and no
   foreign thread is inside `schedule`, every task and timer ever pushed, by any thread, was taken.
   */
  lemma SleepsOnlyWhenDone(run: seq<Loop>, i: nat)
    requires IsRun(run) && i < |run|
    requires run[i].phase == Asleep && run[i].eventfd == 0
    requires forall t :: t != LOOP ==> t !in run[i].owing && t !in run[i].ready.flights && t !in run[i].timed.flights
    ensures run[i].ran == run[i].ready.pushed && run[i].timed.taken == run[i].timed.pushed
  {
    RunKeepsInv(run, i);
    var l := run[i];
    WhenUnreachable(l.ready);
    WhenUnreachable(l.timed);
    hide MpscQueue.Inv;
    assert forall t :: t !in l.owing;
    assert !Reachable(l.ready) && !Reachable(l.timed);
    assert forall t :: !NextIsHalfDone(l.ready, t) && !NextIsHalfDone(l.timed, t);
  }

  /** Tasks run in the order of their tail exchanges, each at most once, whichever thread scheduled them. */
  lemma TasksRunInOrder(run: seq<Loop>, i: nat)
    requires IsRun(run) && i < |run|
    ensures run[i].ran <= run[i].ready.pushed
  {
    RunKeepsInv(run, i);
  }
}
