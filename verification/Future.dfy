/**
 Promise and Future.  A setter closes the waiter list first, then stores the result, then
 schedules the waiters it took; an awaiter that finds the list closed goes straight on to
 read the result.
 */
module FutureProtocol {
  import opened LinkedList
  import opened Wrappers
  import opened OneShotList

  /** `set_value` and `set_exception` differ only in where the result is stored. */
  datatype Outcome = Value(v: int) | Exception(e: int)

  /**
   `result` is the optional value or exception, `given` the arguments of the setter calls; `read`
   what awaiters read.
   */
  datatype State = State(list: List, result: Option<Outcome>, given: map<Thread, Outcome>,
                         read: map<Node, Option<Outcome>>)

  ghost predicate Init(s: State) {
    && OneShotList.Init(s.list)
    && s.result == None && s.read == map[]
    && s.given.Keys == s.list.closer.Keys
  }

  /** set_value, set_exception or the destructor's broken promise, up to the exchange; a setter that loses throws. */
  ghost predicate Sets(s: State, s': State, t: Thread) {
    && Closes(s.list, s'.list, t)
    && s' == s.(list := s'.list)
  }

  /** The winner stores its result and turns to the waiters. */
  ghost predicate Stores(s: State, s': State, t: Thread) {
    && StartsWalk(s.list, s'.list, t) && t in s.given
    && s' == s.(list := s'.list, result := Some(s.given[t]))
  }

  ghost predicate Moves(s: State, s': State) {
    && FreeStep(s.list, s'.list)
    && s' == s.(list := s'.list)
  }

  /** await_resume, after a resumption or without suspending. */
  ghost predicate Reads(s: State, s': State, n: Node) {
    && n in s.list.wait && (s.list.wait[n] == Passed || s.list.wait[n] == Resumed) && n !in s.read
    && s' == s.(read := s.read[n := s.result])
  }

  ghost predicate Next(s: State, s': State) {
    Moves(s, s') || (exists t :: Sets(s, s', t) || Stores(s, s', t)) || (exists n :: Reads(s, s', n))
  }

  ghost predicate IsRun(run: seq<State>) {
    && run != []
    && Init(run[0])
    && forall i :: 0 <= i < |run| - 1 ==> Next(run[i], run[i + 1])
  }

  /** The winner has closed the list and not yet stored its result. */
  ghost predicate BetweenCloseAndStore(s: State) {
    exists t :: t in s.list.closer && s.list.closer[t].Won?
  }

  ghost predicate StoreInv(s: State) {
    && s.given.Keys == s.list.closer.Keys
    && (s.list.winner == {} ==> s.result == None)
    && (forall t :: t in s.list.winner && t in s.given ==>
          s.result == if s.list.closer[t].Won? then None else Some(s.given[t]))
  }

  ghost predicate ReadInv(s: State) {
    forall n :: n in s.read ==>
      && n in s.list.wait
      && (s.read[n] != None ==> s.read[n] == s.result)
      && (s.list.wait[n] == Resumed ==> s.read[n] != None)
      && (s.list.wait[n] == Resumed || s.list.wait[n] == Passed)
  }

  ghost predicate Inv(s: State) {
    OneShotList.Inv(s.list) && StoreInv(s) && ReadInv(s)
  }

  // ---------------------------------------------------------------- proof

  lemma MoveKeepsInv(s: State, s': State)
    requires Inv(s) && Moves(s, s')
    ensures Inv(s')
  {
    hide OneShotList.Inv;
    FreeStepKeepsInv(s.list, s'.list);
    FreeStepFrame(s.list, s'.list);
    hide FreeStep;
  }

  lemma SetKeepsInv(s: State, s': State, t: Thread)
    requires Inv(s) && Sets(s, s', t)
    ensures Inv(s')
  {
    WinnerIsNotIdle(s.list, t);
    hide OneShotList.Inv;
    CloseKeepsInv(s.list, s'.list, t);
  }

  lemma WinnerIsNotIdle(l: List, t: Thread)
    requires OneShotList.Inv(l) && t in l.closer && l.closer[t].Idle?
    ensures t !in l.winner && (l.head == Closed <==> l.winner != {})
  {
  }

  lemma StoreKeepsInv(s: State, s': State, t: Thread)
    requires Inv(s) && Stores(s, s', t)
    ensures Inv(s')
  {
  }

  lemma ResumedWasScheduled(l: List, n: Node)
    requires OneShotList.Inv(l) && n in l.wait && l.wait[n] == Resumed
    ensures n in l.done
  {
  }

  /** A resumed awaiter was scheduled, so the result is there. */
  lemma ResumedSeesResult(s: State, n: Node)
    requires OneShotList.Inv(s.list) && StoreInv(s) && n in s.list.done
    ensures s.result != None
  {
  }

  lemma ReadKeepsInv(s: State, s': State, n: Node)
    requires Inv(s) && Reads(s, s', n)
    ensures Inv(s')
  {
    hide OneShotList.Inv;
    if s.list.wait[n] == Resumed {
      ResumedWasScheduled(s.list, n);
      ResumedSeesResult(s, n);
    }
  }

  lemma StepKeepsInv(s: State, s': State)
    requires Inv(s) && Next(s, s')
    ensures Inv(s')
  {
    hide Inv;
    if Moves(s, s') {
      MoveKeepsInv(s, s');
    } else if t :| Sets(s, s', t) {
      SetKeepsInv(s, s', t);
    } else if t :| Stores(s, s', t) {
      StoreKeepsInv(s, s', t);
    } else {
      var n :| Reads(s, s', n);
      ReadKeepsInv(s, s', n);
    }
  }

  lemma {:induction false} RunKeepsInv(run: seq<State>, i: nat)
    requires IsRun(run) && i < |run|
    ensures Inv(run[i])
  {
    if i == 0 {
      InitInv(run[0].list);
    } else {
      RunKeepsInv(run, i - 1);
      hide Inv;
      assert Next(run[i - 1], run[i]);
      StepKeepsInv(run[i - 1], run[i]);
    }
  }

  // --------------------------------------------------------- main results

  /** Of the competing set_value and set_exception calls exactly one succeeds; the result is its argument. */
  lemma ExactlyOneSetterSucceeds(run: seq<State>, i: nat, t: Thread, u: Thread)
    requires IsRun(run) && i < |run| && t in run[i].list.closer && u in run[i].list.closer
    ensures var c := run[i].list.closer;
            && (c[t].Lost? ==> exists w :: w in c && w != t && !c[w].Idle? && !c[w].Lost?)
            && (!c[t].Idle? && !c[t].Lost? && !c[u].Idle? && !c[u].Lost? ==> t == u)
            && (!c[t].Idle? && !c[t].Lost? && !c[t].Won? ==>
               t in run[i].given && run[i].result == Some(run[i].given[t]))
  {
    RunKeepsInv(run, i);
    var l := run[i].list;
    if l.closer[t].Lost? {
      assert l.winner != {};
      var w :| w in l.winner;
      assert w in l.closer && !l.closer[w].Idle? && !l.closer[w].Lost?;
    }
    if !l.closer[t].Idle? && !l.closer[t].Lost? && !l.closer[u].Idle? && !l.closer[u].Lost? {
      OneWinner(l, t, u);
    }
  }

  /** A waiter is scheduled at most once, and only after the result was stored. */
  lemma ScheduledAfterStore(run: seq<State>, i: nat, n: Node)
    requires IsRun(run) && i < |run|
    ensures multiset(run[i].list.done)[n] <= 1
    ensures n in run[i].list.done ==> run[i].result != None
  {
    RunKeepsInv(run, i);
    ScheduledAtMostOnce(run[i].list, n);
    if n in run[i].list.done { ResumedSeesResult(run[i], n); }
  }

  /** When the setter returns, every waiter whose push came before the close has been scheduled exactly once. */
  lemma SetterWakesEveryone(run: seq<State>, i: nat, t: Thread)
    requires IsRun(run) && i < |run| && t in run[i].list.closer && run[i].list.closer[t].Done?
    ensures run[i].list.done == Reverse(run[i].list.joined)
    ensures forall n :: n in run[i].list.wait && run[i].list.wait[n] == Suspended ==> multiset(run[i].list.done)[n] == 1
  {
    RunKeepsInv(run, i);
    WalkCoversAll(run[i].list, t);
  }

  /** `resumeAll` touches only nodes that are alive and that it has not scheduled. */
  lemma ResumeAllTouchesLiveNodes(run: seq<State>, i: nat, t: Thread)
    requires IsRun(run) && i < |run| && t in run[i].list.closer
    ensures var l := run[i].list; match l.closer[t]
            case Walking(To(n)) => n in l.next && n !in l.done && n in l.wait && l.wait[n] == Suspended
            case AtSchedule(n, _) => n in l.next && n !in l.done && n in l.wait && l.wait[n] == Suspended
            case _ => true
  {
    RunKeepsInv(run, i);
    WalksLiveNodes(run[i].list, t);
  }

  /** Every awaiter that was suspended reads the winner's result. */
  lemma SuspendedReadsResult(run: seq<State>, i: nat, n: Node)
    requires IsRun(run) && i < |run| && n in run[i].read && n in run[i].list.wait && run[i].list.wait[n] == Resumed
    ensures run[i].read[n] == run[i].result && run[i].result != None
  {
    RunKeepsInv(run, i);
  }

  /**
   An awaiter that finds the list closed reads the result exactly if the setter is not between
   closing the list and storing it.
   */
  lemma LateAwaiterReads(run: seq<State>, i: nat, n: Node)
    requires IsRun(run) && i < |run| && n in run[i].list.wait && run[i].list.wait[n] == Passed
    ensures run[i].result != None <==> !BetweenCloseAndStore(run[i])
  {
    RunKeepsInv(run, i);
    var s := run[i];
    assert s.list.winner != {};
    var t :| t in s.list.winner;
    OneWinner(s.list, t, t);
    if BetweenCloseAndStore(s) {
      var u :| u in s.list.closer && s.list.closer[u].Won?;
      OneWinner(s.list, t, u);
    }
  }

  /** One awaiter and one setter, which has closed the list or not. */
  function Pair(w: Wait, closed: bool, read: map<Node, Option<Outcome>>): State {
    var l := List(Open(Nil), map[5 := Nil], map[5 := w], map[1 := OneShotList.Idle], {}, [], [], [], []);
    var l' := if closed then l.(head := Closed, closer := map[1 := Won(Nil)], winner := {1}) else l;
    State(l', None, map[1 := Value(42)], read)
  }

  lemma AwaiterBegins()
    ensures Init(Pair(Fresh, false, map[])) && Next(Pair(Fresh, false, map[]), Pair(AtReady, false, map[]))
  {
    var s, s' := Pair(Fresh, false, map[]), Pair(AtReady, false, map[]);
    assert CallsAwait(s.list, s'.list, 5) && WaiterStep(s.list, s'.list, 5);
  }

  lemma SetterCloses()
    ensures Next(Pair(AtReady, false, map[]), Pair(AtReady, true, map[]))
  {
    assert Sets(Pair(AtReady, false, map[]), Pair(AtReady, true, map[]), 1);
  }

  lemma AwaiterReads()
    ensures Next(Pair(AtReady, true, map[]), Pair(Passed, true, map[]))
            && Next(Pair(Passed, true, map[]), Pair(Passed, true, map[5 := None]))
  {
    var s, s' := Pair(AtReady, true, map[]), Pair(Passed, true, map[]);
    assert LoadsReady(s.list, s'.list, 5) && WaiterStep(s.list, s'.list, 5);
    assert Reads(s', Pair(Passed, true, map[5 := None]), 5);
  }

  /** That window exists: an awaiter can read before the result is stored. */
  lemma LateAwaiterCanMissResult() returns (run: seq<State>, n: Node)
    ensures IsRun(run) && n in run[|run| - 1].read && run[|run| - 1].read[n] == None
  {
    hide Next;
    hide Init;
    AwaiterBegins();
    SetterCloses();
    AwaiterReads();
    run := [Pair(Fresh, false, map[]), Pair(AtReady, false, map[]), Pair(AtReady, true, map[]),
            Pair(Passed, true, map[]), Pair(Passed, true, map[5 := None])];
    n := 5;
  }
}
