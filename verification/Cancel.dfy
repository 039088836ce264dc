/**
 Cooperative cancellation.  `cancel` closes the waiter list, takes the registered callbacks
 under a mutex, fires them inline or through a scheduler, and then resumes the waiters;
 meanwhile other threads register callbacks and unregister them.
 */
module CancelProtocol {
  import opened Collections
  import opened LinkedList
  import opened OneShotList

  type Callback = nat

  datatype Add =
    | New
    | AtCheck      // addCallback: holds the mutex, about to load the list head
    | AtAppend     // saw the list open, about to append and unlock
    | Registered   // returned the active flag
    | Late         // saw the list closed; will call or dispatch the callback itself
    | LateRan

  datatype Mutex = Free | ByAdder(b: Callback) | ByCanceller(t: Thread)

  /** Where a callback is (history). */
  datatype Place = Nowhere | Stored | Taken | Queued | Fired | Aside

  /**
   One registration: its adder, its atomic flag, how often the callback was called, whether
   `unregister` was the first to set the flag, and where it is.
   */
  datatype Cell = Cell(add: Add, flag: bool, ran: nat, unregistered: bool, place: Place)

  /**
   `callbacks` is the shared vector, `cbs` what the canceller swapped out and has not fired,
   `queued` the lambdas it put on schedulers.
   */
  datatype State = State(
    list: List,
    mutex: Mutex,
    callbacks: seq<Callback>,
    cbs: seq<Callback>,
    swapped: bool,
    queued: set<Callback>,
    cell: map<Callback, Cell>)

  // ---------------------------------------------------------------- steps

  ghost predicate Init(s: State) {
    && OneShotList.Init(s.list)
    && s.mutex == Free && s.callbacks == [] && s.cbs == [] && !s.swapped && s.queued == {}
    && forall b :: b in s.cell ==> s.cell[b] == Cell(New, false, 0, false, Nowhere)
  }

  ghost predicate AddLocks(s: State, s': State, b: Callback) {
    && b in s.cell && s.cell[b].add == New && s.mutex == Free
    && s' == s.(mutex := ByAdder(b), cell := s.cell[b := s.cell[b].(add := AtCheck)])
  }

  ghost predicate AddChecks(s: State, s': State, b: Callback) {
    && b in s.cell && s.cell[b].add == AtCheck
    && s' == if s.list.head == Closed
             then s.(mutex := Free, cell := s.cell[b := s.cell[b].(add := Late, place := Aside)])
             else s.(cell := s.cell[b := s.cell[b].(add := AtAppend)])
  }

  ghost predicate AddAppends(s: State, s': State, b: Callback) {
    && b in s.cell && s.cell[b].add == AtAppend
    && s' == s.(mutex := Free, callbacks := s.callbacks + [b],
                cell := s.cell[b := s.cell[b].(add := Registered, place := Stored)])
  }

  ghost predicate LateRuns(s: State, s': State, b: Callback) {
    && b in s.cell && s.cell[b].add == Late
    && s' == s.(cell := s.cell[b := s.cell[b].(add := LateRan, ran := s.cell[b].ran + 1)])
  }

  ghost predicate Unregisters(s: State, s': State, b: Callback) {
    && b in s.cell && s.cell[b].add == Registered
    && var c := s.cell[b];
       s' == s.(cell := s.cell[b := c.(flag := true, unregistered := c.unregistered || !c.flag)])
  }

  /** `if (!active->test_and_set()) fn();` */
  function FlagThenRun(c: Cell): Cell {
    c.(flag := true, ran := if c.flag then c.ran else c.ran + 1, place := Fired)
  }

  ghost predicate RunsQueued(s: State, s': State, b: Callback) {
    && b in s.queued && b in s.cell
    && s' == s.(queued := s.queued - {b}, cell := s.cell[b := FlagThenRun(s.cell[b])])
  }

  ghost predicate AddStep(s: State, s': State, b: Callback) {
    AddLocks(s, s', b) || AddChecks(s, s', b) || AddAppends(s, s', b)
  }

  ghost predicate RunStep(s: State, s': State, b: Callback) {
    LateRuns(s, s', b) || Unregisters(s, s', b) || RunsQueued(s, s', b)
  }

  ghost predicate CancelCloses(s: State, s': State, t: Thread) {
    && Closes(s.list, s'.list, t)
    && s' == s.(list := s'.list)
  }

  ghost predicate CancelLocks(s: State, s': State, t: Thread) {
    && t in s.list.closer && s.list.closer[t].Won? && !s.swapped && s.mutex == Free
    && s' == s.(mutex := ByCanceller(t))
  }

  function Take(c: Cell): Cell {
    if c.place == Stored then c.(place := Taken) else c
  }

  ghost predicate CancelSwaps(s: State, s': State, t: Thread) {
    && t in s.list.closer && s.mutex == ByCanceller(t)
    && s' == s.(mutex := Free, cbs := s.callbacks, callbacks := [], swapped := true,
                cell := map b | b in s.cell :: Take(s.cell[b]))
  }

  ghost predicate FiresInline(s: State, s': State, t: Thread) {
    && t in s.list.closer && s.list.closer[t].Won? && s.swapped && s.cbs != [] && s.cbs[0] in s.cell
    && s' == s.(cbs := s.cbs[1..], cell := s.cell[s.cbs[0] := FlagThenRun(s.cell[s.cbs[0]])])
  }

  ghost predicate FiresToScheduler(s: State, s': State, t: Thread) {
    && t in s.list.closer && s.list.closer[t].Won? && s.swapped && s.cbs != [] && s.cbs[0] in s.cell
    && s' == s.(cbs := s.cbs[1..], queued := s.queued + {s.cbs[0]},
                cell := s.cell[s.cbs[0] := s.cell[s.cbs[0]].(place := Queued)])
  }

  ghost predicate CancelWalks(s: State, s': State, t: Thread) {
    && s.swapped && s.cbs == [] && StartsWalk(s.list, s'.list, t)
    && s' == s.(list := s'.list)
  }

  ghost predicate CancelStep(s: State, s': State, t: Thread) {
    || CancelCloses(s, s', t) || CancelLocks(s, s', t) || CancelSwaps(s, s', t)
    || FiresInline(s, s', t) || FiresToScheduler(s, s', t) || CancelWalks(s, s', t)
  }

  ghost predicate Moves(s: State, s': State) {
    && FreeStep(s.list, s'.list)
    && s' == s.(list := s'.list)
  }

  ghost predicate Next(s: State, s': State) {
    Moves(s, s') || (exists b :: AddStep(s, s', b) || RunStep(s, s', b)) || (exists t :: CancelStep(s, s', t))
  }

  ghost predicate IsRun(run: seq<State>) {
    && run != []
    && Init(run[0])
    && forall i :: 0 <= i < |run| - 1 ==> Next(run[i], run[i + 1])
  }

  // ------------------------------------------------------------ invariant

  /** What is known of one registration, by where it is. */
  predicate CellInv(c: Cell) {
    match c.place
    case Nowhere => (c.add.New? || c.add.AtCheck? || c.add.AtAppend?) && c.ran == 0 && !c.flag && !c.unregistered
    case Fired => c.add.Registered? && c.flag && c.ran == (if c.unregistered then 0 else 1)
    case Aside => (c.add.Late? || c.add.LateRan?) && c.ran == (if c.add.LateRan? then 1 else 0) && !c.unregistered
    case _ => c.add.Registered? && c.ran == 0 && (c.flag <==> c.unregistered)
  }

  ghost function In(s: State, p: Place): set<Callback> {
    set b | b in s.cell && s.cell[b].place == p
  }

  /** The containers hold exactly the callbacks whose place they are, each once. */
  ghost predicate PlaceInv(s: State) {
    && multiset(s.callbacks) == multiset(In(s, Stored))
    && multiset(s.cbs) == multiset(In(s, Taken))
    && s.queued == In(s, Queued)
  }

  ghost predicate MutexInv(s: State) {
    && (forall b :: b in s.cell ==> (s.cell[b].add.AtCheck? || s.cell[b].add.AtAppend? <==> s.mutex == ByAdder(b)))
    && (forall t :: s.mutex == ByCanceller(t) ==> !s.swapped && t in s.list.closer && s.list.closer[t].Won?)
  }

  predicate NotWalking(c: Close) {
    c.Idle? || c.Lost? || c.Won?
  }

  /** Nobody can add to the shared vector once it has been swapped out, and nobody walks before that. */
  ghost predicate StageInv(s: State) {
    && (s.swapped ==> s.list.head == Closed && s.callbacks == [])
    && (s.swapped ==> forall b :: b in s.cell ==> !s.cell[b].add.AtAppend?)
    && (!s.swapped ==> s.cbs == [])
    && (!s.swapped || s.cbs != [] ==> forall t :: t in s.list.closer ==> NotWalking(s.list.closer[t]))
  }

  ghost predicate Inv(s: State) {
    && OneShotList.Inv(s.list)
    && PlaceInv(s) && MutexInv(s) && StageInv(s)
    && (forall b :: b in s.cell ==> CellInv(s.cell[b]))
  }

  // ---------------------------------------------------------------- proof

  lemma InitInv(s: State)
    requires Init(s)
    ensures Inv(s)
  {
  }

  lemma InListPlace(s: State, b: Callback)
    requires PlaceInv(s)
    ensures b in s.callbacks ==> b in s.cell && s.cell[b].place == Stored
    ensures b in s.cbs ==> b in s.cell && s.cell[b].place == Taken
    ensures b in s.queued ==> b in s.cell && s.cell[b].place == Queued
  {
    assert b in multiset(s.callbacks) ==> b in In(s, Stored);
    assert b in multiset(s.cbs) ==> b in In(s, Taken);
  }

  lemma AppendKeepsPlaces(s: State, s': State, b: Callback)
    requires PlaceInv(s) && AddAppends(s, s', b) && s.cell[b].place == Nowhere
    ensures PlaceInv(s')
  {
  }

  predicate InContainer(p: Place) {
    p == Stored || p == Taken || p == Queued
  }

  /** A registration that stays where it is, or stays out of the containers, moves nothing. */
  lemma ChangeInPlace(s: State, s': State, b: Callback, c: Cell)
    requires PlaceInv(s) && b in s.cell && s'.cell == s.cell[b := c]
    requires c.place == s.cell[b].place || (!InContainer(c.place) && !InContainer(s.cell[b].place))
    requires s'.callbacks == s.callbacks && s'.cbs == s.cbs && s'.queued == s.queued
    ensures PlaceInv(s')
  {
  }

  lemma AddKeepsInv(s: State, s': State, b: Callback)
    requires Inv(s) && AddStep(s, s', b)
    ensures Inv(s')
  {
    hide OneShotList.Inv; hide PlaceInv;
    assert CellInv(s.cell[b]);
    if AddAppends(s, s', b) { AppendKeepsPlaces(s, s', b); } else { ChangeInPlace(s, s', b, s'.cell[b]); }
  }

  lemma QueuedRunKeepsPlaces(s: State, s': State, b: Callback)
    requires PlaceInv(s) && RunsQueued(s, s', b)
    ensures PlaceInv(s')
  {
  }

  lemma RunStepKeepsInv(s: State, s': State, b: Callback)
    requires Inv(s) && RunStep(s, s', b)
    ensures Inv(s')
  {
    hide OneShotList.Inv; hide PlaceInv;
    InListPlace(s, b);
    if RunsQueued(s, s', b) { QueuedRunKeepsPlaces(s, s', b); } else { ChangeInPlace(s, s', b, s'.cell[b]); }
  }

  lemma FireKeepsPlaces(s: State, s': State, t: Thread)
    requires PlaceInv(s) && (FiresInline(s, s', t) || FiresToScheduler(s, s', t))
    ensures PlaceInv(s')
  {
    var b := s.cbs[0];
    PopFront(s.cbs, In(s, Taken));
    assert In(s', Stored) == In(s, Stored);
    assert In(s', Taken) == In(s, Taken) - {b};
    assert s'.queued == In(s', Queued);
  }

  lemma FireKeepsInv(s: State, s': State, t: Thread)
    requires Inv(s) && (FiresInline(s, s', t) || FiresToScheduler(s, s', t))
    ensures Inv(s')
  {
    hide OneShotList.Inv; hide PlaceInv;
    InListPlace(s, s.cbs[0]);
    FireKeepsPlaces(s, s', t);
  }

  lemma SwapKeepsPlaces(s: State, s': State, t: Thread)
    requires PlaceInv(s) && CancelSwaps(s, s', t) && s.cbs == []
    ensures PlaceInv(s')
  {
    forall b | b in s.cell ensures s'.cell[b] == Take(s.cell[b]) && s.cell[b].place != Taken {
      assert b in In(s, Taken) <==> b in multiset(In(s, Taken));
    }
    assert In(s', Stored) == {};
    assert In(s', Taken) == In(s, Stored);
    assert In(s', Queued) == In(s, Queued);
  }

  lemma SwapKeepsInv(s: State, s': State, t: Thread)
    requires Inv(s) && CancelSwaps(s, s', t)
    ensures Inv(s')
  {
    ClosedIfWon(s.list, t);
    hide OneShotList.Inv; hide PlaceInv;
    SwapKeepsPlaces(s, s', t);
  }

  lemma ClosedIfWon(l: List, t: Thread)
    requires OneShotList.Inv(l) && t in l.closer && !l.closer[t].Idle?
    ensures l.head == Closed
  {
  }

  lemma CloseKeepsCancelInv(s: State, s': State, t: Thread)
    requires Inv(s) && CancelCloses(s, s', t)
    ensures Inv(s')
  {
    hide OneShotList.Inv; hide PlaceInv;
    CloseKeepsInv(s.list, s'.list, t);
    SamePlaces(s, s');
  }

  /** A step of the list or the mutex leaves the callbacks as they were. */
  lemma SamePlaces(s: State, s': State)
    requires PlaceInv(s) && s' == s.(list := s'.list, mutex := s'.mutex)
    ensures PlaceInv(s')
  {
  }

  lemma WalksKeepsInv(s: State, s': State, t: Thread)
    requires Inv(s) && CancelWalks(s, s', t)
    ensures Inv(s')
  {
  }

  lemma LocksKeepsInv(s: State, s': State, t: Thread)
    requires Inv(s) && CancelLocks(s, s', t)
    ensures Inv(s')
  {
  }

  lemma MoveKeepsInv(s: State, s': State)
    requires Inv(s) && Moves(s, s')
    ensures Inv(s')
  {
    hide OneShotList.Inv; hide PlaceInv;
    FreeStepKeepsInv(s.list, s'.list);
    FreeStepFrame(s.list, s'.list);
    SamePlaces(s, s');
    NotWalkingStays(s.list, s'.list);
    hide FreeStep;
  }

  lemma NotWalkingStays(l: List, l': List)
    requires FreeStep(l, l')
    ensures forall t :: t in l.closer && t in l'.closer && NotWalking(l.closer[t]) ==> l'.closer[t] == l.closer[t]
  {
  }

  lemma StepKeepsInv(s: State, s': State)
    requires Inv(s) && Next(s, s')
    ensures Inv(s')
  {
    hide Inv;
    if Moves(s, s') {
      MoveKeepsInv(s, s');
    } else if b :| AddStep(s, s', b) || RunStep(s, s', b) {
      if AddStep(s, s', b) { AddKeepsInv(s, s', b); } else { RunStepKeepsInv(s, s', b); }
    } else {
      var t :| CancelStep(s, s', t);
      if CancelCloses(s, s', t) { CloseKeepsCancelInv(s, s', t); }
      else if CancelLocks(s, s', t) { LocksKeepsInv(s, s', t); }
      else if CancelSwaps(s, s', t) { SwapKeepsInv(s, s', t); }
      else if CancelWalks(s, s', t) { WalksKeepsInv(s, s', t); }
      else { FireKeepsInv(s, s', t); }
    }
  }

  lemma {:induction false} RunKeepsInv(run: seq<State>, i: nat)
    requires IsRun(run) && i < |run|
    ensures Inv(run[i])
  {
    if i == 0 {
      InitInv(run[0]);
    } else {
      RunKeepsInv(run, i - 1);
      hide Inv;
      assert Next(run[i - 1], run[i]);
      StepKeepsInv(run[i - 1], run[i]);
    }
  }

  // --------------------------------------------------------- main results

  /** Under any interleaving a callback runs at most once, and never after `unregister` set its flag first. */
  lemma RunsAtMostOnce(run: seq<State>, i: nat, b: Callback)
    requires IsRun(run) && i < |run| && b in run[i].cell
    ensures run[i].cell[b].ran <= 1
    ensures run[i].cell[b].unregistered ==> run[i].cell[b].ran == 0
  {
    RunKeepsInv(run, i);
    assert CellInv(run[i].cell[b]);
  }

  /** `cancel` has fired the callbacks and the schedulers have drained. */
  ghost predicate Settled(s: State) {
    && (exists t :: t in s.list.closer && !NotWalking(s.list.closer[t]))
    && s.queued == {}
    && forall b :: b in s.cell ==> !s.cell[b].add.Late?
  }

  /**
   After cancel and a drain of the schedulers, every callback that was registered, before the
   cancellation, during it or after it, has run exactly once unless unregister won.
   */
  lemma RunsUnlessUnregistered(run: seq<State>, i: nat, b: Callback)
    requires IsRun(run) && i < |run| && Settled(run[i]) && b in run[i].cell
    requires run[i].cell[b].add.Registered? || run[i].cell[b].add.LateRan?
    ensures run[i].cell[b].ran == if run[i].cell[b].unregistered then 0 else 1
  {
    RunKeepsInv(run, i);
    var s := run[i];
    hide OneShotList.Inv;
    assert CellInv(s.cell[b]);
    assert s.swapped && s.cbs == [] && s.callbacks == [];
    var p := s.cell[b].place;
    assert b in In(s, p) && b in multiset(In(s, p));
    assert p != Stored && p != Taken && p != Queued;
  }

  /** Every waiter is resumed at most once, and exactly once when `cancel` has returned. */
  lemma WaitersResumedExactlyOnce(run: seq<State>, i: nat, t: Thread, n: Node)
    requires IsRun(run) && i < |run| && t in run[i].list.closer
    ensures multiset(run[i].list.done)[n] <= 1
    ensures var l := run[i].list;
            l.closer[t].Done? && n in l.wait && l.wait[n] == Suspended ==> multiset(l.done)[n] == 1
  {
    RunKeepsInv(run, i);
    ScheduledAtMostOnce(run[i].list, n);
    if run[i].list.closer[t].Done? { WalkCoversAll(run[i].list, t); }
  }

  /** Waiters are resumed only after every callback was fired or handed to its scheduler. */
  lemma CallbacksBeforeWaiters(run: seq<State>, i: nat)
    requires IsRun(run) && i < |run| && run[i].list.done != []
    ensures run[i].swapped && run[i].cbs == []
  {
    RunKeepsInv(run, i);
    var l := run[i].list;
    assert l.winner != {};
    var t :| t in l.winner;
    assert WalkAt(l, l.closer[t]) && !NotWalking(l.closer[t]);
  }
}
