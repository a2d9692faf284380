/**
 The thread pool: workers, the queue of scheduled coroutines, one mutex and one condition variable.

 `Step` is one atomic step of one thread: what a worker does between two points at which another thread may
 come in between. `Pool` is the same in place. Any interleaving is a run, and the theorems are about all of them.
 */
module ThreadPool {
  import opened Prelude

  /**
   Where a worker is: at the loop head; asking for the mutex; holding it, about to test the wait condition;
   holding it, about to sleep; asleep; woken and asking for the mutex again; holding it with the condition met;
   inside a coroutine; or gone.
   */
  datatype Worker = AtHead | Locking | Testing | Falling | Asleep | Woken | Ready | Inside(handle: nat) | Gone

  datatype State = State(
    workers: seq<Worker>, mutex: Option<nat>, queue: seq<nat>, stop: bool,
    scheduled: seq<nat>, taken: seq<(nat, nat)>)

  function Fresh(n: nat): State {
    State(seq(n, _ => AtHead), None, [], false, [], [])
  }

  /** `Schedule` names the sleeper that `notify_one` wakes, if anyone sleeps. */
  datatype Event =
    | Schedule(handle: nat, wakes: nat)
    | Enter(worker: nat)
    | Lock(worker: nat)
    | Test(worker: nat)
    | Sleep(worker: nat)
    | Spurious(worker: nat)
    | Pop(worker: nat)
    | Return(worker: nat)
    | RequestStop
    | NotifyAll

  predicate Is(s: State, w: nat, what: Worker) {
    w < |s.workers| && s.workers[w] == what
  }

  predicate Sleeper(s: State) {
    exists w :: 0 <= w < |s.workers| && s.workers[w] == Asleep
  }

  predicate Enabled(s: State, e: Event) {
    match e
    case Schedule(_, w) => s.mutex.None? && (Sleeper(s) ==> Is(s, w, Asleep))
    case Enter(w) => Is(s, w, AtHead)
    case Lock(w) => s.mutex.None? && (Is(s, w, Locking) || Is(s, w, Woken))
    case Test(w) => Is(s, w, Testing)
    case Sleep(w) => Is(s, w, Falling)
    case Spurious(w) => Is(s, w, Asleep)
    case Pop(w) => Is(s, w, Ready) && (s.stop || s.queue != [])
    case Return(w) => w < |s.workers| && s.workers[w].Inside?
    case RequestStop => true
    case NotifyAll => true
  }

  function Moves(s: State, w: nat, to: Worker): State
    requires w < |s.workers|
  {
    s.(workers := s.workers[w := to])
  }

  function Wake(w: Worker): Worker {
    if w == Asleep then Woken else w
  }

  function WakeAll(ws: seq<Worker>): (r: seq<Worker>)
    ensures |r| == |ws| && forall i :: 0 <= i < |ws| ==> r[i] == Wake(ws[i])
  {
    seq(|ws|, i requires 0 <= i < |ws| => Wake(ws[i]))
  }

  function Step(s: State, e: Event): State
    requires Enabled(s, e)
  {
    match e
    case Schedule(h, w) =>
      (if Sleeper(s) then Moves(s, w, Woken) else s).(queue := s.queue + [h], scheduled := s.scheduled + [h])
    case Enter(w) => Moves(s, w, if s.stop then Gone else Locking)
    case Lock(w) => Moves(s, w, Testing).(mutex := Some(w))
    case Test(w) => Moves(s, w, if s.queue != [] || s.stop then Ready else Falling)
    case Sleep(w) => Moves(s, w, Asleep).(mutex := None)
    case Spurious(w) => Moves(s, w, Woken)
    case Pop(w) =>
      if s.stop then Moves(s, w, Gone).(mutex := None)
      else Moves(s, w, Inside(s.queue[0])).(mutex := None, queue := s.queue[1..], taken := s.taken + [(w, s.queue[0])])
    case Return(w) => Moves(s, w, AtHead)
    case RequestStop => s.(stop := true)
    case NotifyAll => s.(workers := WakeAll(s.workers))
  }

  function Run(s: State, events: seq<Event>): State
    decreases |events|
  {
    if events == [] then s
    else Run(if Enabled(s, events[0]) then Step(s, events[0]) else s, events[1..])
  }

  /** One more event is one more step, if it can happen. */
  lemma {:induction false} RunNext(s: State, events: seq<Event>, e: Event)
    ensures var end := Run(s, events); Run(s, events + [e]) == if Enabled(end, e) then Step(end, e) else end
    decreases |events|
  {
    hide Enabled, Step;
    if events == [] {
      assert [] + [e] == [e] && [e][1..] == [];
    } else {
      assert (events + [e])[1..] == events[1..] + [e];
      RunNext(if Enabled(s, events[0]) then Step(s, events[0]) else s, events[1..], e);
    }
  }

  // ---- Counting workers ----

  function Sum(ws: seq<Worker>, weight: Worker -> nat): nat {
    if ws == [] then 0 else weight(ws[0]) + Sum(ws[1..], weight)
  }

  lemma {:induction false} SumUpdate(ws: seq<Worker>, weight: Worker -> nat, w: nat, to: Worker)
    requires w < |ws|
    ensures Sum(ws[w := to], weight) + weight(ws[w]) == Sum(ws, weight) + weight(to)
    decreases |ws|
  {
    if w == 0 {
      assert ws[0 := to][1..] == ws[1..];
    } else {
      SumUpdate(ws[1..], weight, w - 1, to);
      assert ws[w := to][1..] == ws[1..][w - 1 := to];
    }
  }

  lemma {:induction false} SumPositive(ws: seq<Worker>, weight: Worker -> nat) returns (w: nat)
    requires Sum(ws, weight) > 0
    ensures w < |ws| && weight(ws[w]) > 0
    decreases |ws|
  {
    if weight(ws[0]) > 0 {
      w := 0;
    } else {
      w := SumPositive(ws[1..], weight);
      w := w + 1;
    }
  }

  /** Awake, not inside a coroutine, and on the way to test the queue or to pop from it. */
  function Heads(w: Worker): nat {
    if w in {AtHead, Locking, Testing, Woken, Ready} then 1 else 0
  }

  function Heading(s: State): nat {
    Sum(s.workers, Heads)
  }

  // ---- The invariant ----

  predicate Holds(w: Worker) {
    w in {Testing, Falling, Ready}
  }

  ghost predicate MutexKept(s: State) {
    && (forall w :: 0 <= w < |s.workers| ==> (Holds(s.workers[w]) <==> s.mutex == Some(w)))
    && (s.mutex.Some? ==> s.mutex.value < |s.workers|)
    && (!s.stop ==> forall w :: 0 <= w < |s.workers| ==>
          && (s.workers[w] == Falling ==> s.queue == [])
          && (s.workers[w] == Ready ==> s.queue != [])
          && s.workers[w] != Gone)
  }

  function Handles(taken: seq<(nat, nat)>): (r: seq<nat>)
    ensures |r| == |taken| && forall i :: 0 <= i < |taken| ==> r[i] == taken[i].1
  {
    seq(|taken|, i requires 0 <= i < |taken| => taken[i].1)
  }

  ghost predicate NoLostWork(s: State) {
    !s.stop && Sleeper(s) ==> |s.queue| <= Heading(s)
  }

  ghost predicate Inv(s: State) {
    && MutexKept(s) && NoLostWork(s)
    && s.scheduled == Handles(s.taken) + s.queue
    && forall i :: 0 <= i < |s.taken| ==> s.taken[i].0 < |s.workers|
  }

  lemma FreshKeeps(n: nat)
    ensures Inv(Fresh(n))
  {
    assert Handles([]) + [] == [];
  }

  lemma StepKeepsMutex(s: State, e: Event)
    requires Inv(s) && Enabled(s, e)
    ensures MutexKept(Step(s, e))
  {
  }

  /** No sleeper appears but by `Sleep`. */
  lemma StepKeepsSleepers(s: State, e: Event)
    requires Inv(s) && Enabled(s, e) && Sleeper(Step(s, e)) && !e.Sleep?
    ensures Sleeper(s)
  {
    var n := Step(s, e);
    var w :| 0 <= w < |n.workers| && n.workers[w] == Asleep;
    assert s.workers[w] == Asleep;
  }

  lemma StepKeepsWork(s: State, e: Event)
    requires Inv(s) && Enabled(s, e)
    ensures NoLostWork(Step(s, e))
  {
    var n := Step(s, e);
    if !n.stop && Sleeper(n) {
      if e.Sleep? {
        assert s.workers[e.worker] == Falling;
      } else {
        StepKeepsSleepers(s, e);
        HeadingKept(s, e);
      }
    }
  }

  /** With a sleeper around, workers on their way and handles in the queue come and go together. */
  lemma HeadingKept(s: State, e: Event)
    requires Inv(s) && Enabled(s, e) && !s.stop && Sleeper(s) && !e.Sleep? && !Step(s, e).stop
    ensures Heading(Step(s, e)) - |Step(s, e).queue| >= Heading(s) - |s.queue| || Step(s, e).queue == []
  {
    hide Sum, Sleeper;
    match e
    case Schedule(_, w) => SumUpdate(s.workers, Heads, w, Woken);
    case Enter(w) => SumUpdate(s.workers, Heads, w, Locking);
    case Lock(w) => SumUpdate(s.workers, Heads, w, Testing);
    case Test(w) => SumUpdate(s.workers, Heads, w, if s.queue != [] then Ready else Falling);
    case Sleep(w) =>
    case Spurious(w) => SumUpdate(s.workers, Heads, w, Woken);
    case Pop(w) => SumUpdate(s.workers, Heads, w, Inside(s.queue[0]));
    case Return(w) => SumUpdate(s.workers, Heads, w, AtHead);
    case RequestStop =>
    case NotifyAll => WakingAdds(s.workers);
  }

  lemma {:induction false} WakingAdds(ws: seq<Worker>)
    ensures Sum(WakeAll(ws), Heads) >= Sum(ws, Heads)
    decreases |ws|
  {
    if ws != [] {
      assert WakeAll(ws)[1..] == WakeAll(ws[1..]);
      WakingAdds(ws[1..]);
    }
  }

  lemma StepKeeps(s: State, e: Event)
    requires Inv(s) && Enabled(s, e)
    ensures Inv(Step(s, e))
  {
    var n := Step(s, e);
    StepKeepsMutex(s, e);
    StepKeepsWork(s, e);
    hide MutexKept, NoLostWork;
    if e.Pop? && !s.stop {
      assert Handles(n.taken) == Handles(s.taken) + [s.queue[0]];
    }
  }

  lemma {:induction false} RunKeeps(s: State, events: seq<Event>)
    requires Inv(s)
    ensures Inv(Run(s, events))
    decreases |events|
  {
    hide Inv, Step, Enabled;
    if events != [] {
      if Enabled(s, events[0]) {
        StepKeeps(s, events[0]);
      }
      RunKeeps(if Enabled(s, events[0]) then Step(s, events[0]) else s, events[1..]);
    }
  }

  // ---- No lost work, and each handle once ----

  /**
   Without a stop, whenever some worker sleeps the awake workers on their way to the queue are at least as many
   as the handles in it; and a worker that is about to pop finds a handle.
   */
  lemma NoWorkIsLost(n: nat, events: seq<Event>)
    ensures var s := Run(Fresh(n), events);
      && (!s.stop && Sleeper(s) ==> |s.queue| <= Heading(s))
      && (forall w :: 0 <= w < |s.workers| && s.workers[w] == Ready ==> Enabled(s, Pop(w)))
  {
    FreshKeeps(n);
    RunKeeps(Fresh(n), events);
  }

  /** At most one worker holds the mutex, and it is where the code has it. */
  lemma OneHolder(n: nat, events: seq<Event>, v: nat, w: nat)
    requires v < |Run(Fresh(n), events).workers| && w < |Run(Fresh(n), events).workers|
    requires Holds(Run(Fresh(n), events).workers[v]) && Holds(Run(Fresh(n), events).workers[w])
    ensures v == w
  {
    FreshKeeps(n);
    RunKeeps(Fresh(n), events);
  }

  /** Scheduled handles are taken once each, in the order of scheduling, or are queued. */
  lemma TakenInOrder(n: nat, events: seq<Event>)
    ensures var s := Run(Fresh(n), events); s.scheduled == Handles(s.taken) + s.queue
  {
    FreshKeeps(n);
    RunKeeps(Fresh(n), events);
  }

  // ---- Coroutines that never return ----

  predicate Lasting(e: Event) {
    !e.Return? && !e.RequestStop?
  }

  function Busy(w: Worker): nat {
    if w.Inside? then 1 else 0
  }

  /** Whoever took a handle is inside it, and nobody took two. */
  ghost predicate Occupied(s: State) {
    && !s.stop && Sum(s.workers, Busy) == |s.taken|
    && (forall i :: 0 <= i < |s.taken| ==> Is(s, s.taken[i].0, Inside(s.taken[i].1)))
    && (forall i, j :: 0 <= i < j < |s.taken| ==> s.taken[i].0 != s.taken[j].0)
  }

  lemma {:induction false} NobodyBusy(n: nat)
    ensures Sum(Fresh(n).workers, Busy) == 0
  {
    if n > 0 {
      NobodyBusy(n - 1);
      assert Fresh(n).workers[1..] == Fresh(n - 1).workers;
    }
  }

  lemma StepKeepsOccupied(s: State, e: Event)
    requires Occupied(s) && Enabled(s, e) && Lasting(e)
    ensures Occupied(Step(s, e)) && |Step(s, e).workers| == |s.workers|
  {
    BusyKept(s, e);
    hide Sum, Sleeper;
    var n := Step(s, e);
    forall i | 0 <= i < |n.taken| ensures Is(n, n.taken[i].0, Inside(n.taken[i].1)) {
      if i < |s.taken| { assert Is(s, s.taken[i].0, Inside(s.taken[i].1)); }
    }
    if e.Pop? {
      assert forall i :: 0 <= i < |s.taken| ==> s.taken[i].0 != e.worker;
    }
  }

  lemma BusyKept(s: State, e: Event)
    requires Enabled(s, e) && Lasting(e) && !s.stop
    ensures Sum(Step(s, e).workers, Busy) == Sum(s.workers, Busy) + if e.Pop? then 1 else 0
  {
    hide Sum, Sleeper;
    match e
    case Schedule(_, w) => if Sleeper(s) { SumUpdate(s.workers, Busy, w, Woken); }
    case Enter(w) => SumUpdate(s.workers, Busy, w, Locking);
    case Lock(w) => SumUpdate(s.workers, Busy, w, Testing);
    case Test(w) => SumUpdate(s.workers, Busy, w, if s.queue != [] then Ready else Falling);
    case Sleep(w) => SumUpdate(s.workers, Busy, w, Asleep);
    case Spurious(w) => SumUpdate(s.workers, Busy, w, Woken);
    case Pop(w) => SumUpdate(s.workers, Busy, w, Inside(s.queue[0]));
    case NotifyAll => WakingFrees(s.workers);
  }

  lemma {:induction false} WakingFrees(ws: seq<Worker>)
    ensures Sum(WakeAll(ws), Busy) == Sum(ws, Busy)
    decreases |ws|
  {
    if ws != [] {
      assert WakeAll(ws)[1..] == WakeAll(ws[1..]);
      WakingFrees(ws[1..]);
    }
  }

  lemma {:induction false} RunKeepsOccupied(s: State, events: seq<Event>)
    requires Occupied(s) && forall i :: 0 <= i < |events| ==> Lasting(events[i])
    ensures Occupied(Run(s, events)) && |Run(s, events).workers| == |s.workers|
    decreases |events|
  {
    hide Occupied, Step, Enabled;
    if events != [] {
      var next := if Enabled(s, events[0]) then Step(s, events[0]) else s;
      if Enabled(s, events[0]) {
        StepKeepsOccupied(s, events[0]);
      }
      RunKeepsOccupied(next, events[1..]);
    }
  }

  /** A step that a worker can take towards the queue. */
  predicate Towards(e: Event) {
    e.Enter? || e.Lock? || e.Test? || e.Pop?
  }

  lemma {:induction false} HeadsAndBusy(ws: seq<Worker>)
    requires forall w :: 0 <= w < |ws| ==> ws[w] !in {Asleep, Falling, Gone}
    ensures Sum(ws, Heads) + Sum(ws, Busy) == |ws|
    decreases |ws|
  {
    if ws != [] {
      HeadsAndBusy(ws[1..]);
    }
  }

  /** With work in the queue and a worker left for it, some worker is on its way. */
  lemma SomeoneHeads(s: State)
    requires Inv(s) && Occupied(s) && s.queue != [] && |s.scheduled| <= |s.workers|
    ensures Heading(s) > 0
  {
    if !Sleeper(s) {
      HeadsAndBusy(s.workers);
    }
  }

  /** And a step of it, or of the worker that holds the mutex, is enabled: the pool is never stuck. */
  lemma StepAhead(s: State) returns (e: Event)
    requires Inv(s) && Occupied(s) && s.queue != [] && |s.scheduled| <= |s.workers|
    ensures Enabled(s, e) && Towards(e)
  {
    SomeoneHeads(s);
    var w := SumPositive(s.workers, Heads);
    if s.mutex.Some? {
      var v := s.mutex.value;
      e := if s.workers[v] == Testing then Test(v) else Pop(v);
    } else {
      e := if s.workers[w] == AtHead then Enter(w) else Lock(w);
    }
  }

  /** How far a worker is from taking a handle while there are any. */
  function Far(w: Worker): nat {
    match w
    case Asleep => 5
    case AtHead => 4
    case Locking => 3
    case Woken => 3
    case Testing => 2
    case Ready => 1
    case _ => 0
  }

  predicate WorkerStep(e: Event) {
    Towards(e) || e.Sleep? || e.Spurious?
  }

  lemma WorkNears(s: State, e: Event)
    requires Inv(s) && !s.stop && s.queue != [] && Enabled(s, e) && WorkerStep(e)
    ensures Sum(Step(s, e).workers, Far) < Sum(s.workers, Far)
  {
    hide Sum, Sleeper;
    SumUpdate(s.workers, Far, e.worker, Step(s, e).workers[e.worker]);
  }

  /** Events each of which is enabled when its turn comes. */
  ghost predicate Happen(s: State, events: seq<Event>)
    decreases |events|
  {
    events == [] || (Enabled(s, events[0]) && WorkerStep(events[0]) && Happen(Step(s, events[0]), events[1..]))
  }

  /** Whichever workers step, in whatever order, the queue is empty after a bounded number of steps. */
  lemma {:induction false} Drains(s: State, events: seq<Event>)
    requires Inv(s) && !s.stop && Happen(s, events) && |events| > Sum(s.workers, Far)
    ensures Run(s, events).queue == []
    decreases |events|
  {
    hide Inv, Sum, Enabled;
    if s.queue == [] {
      StaysEmpty(s, events);
    } else {
      WorkNears(s, events[0]);
      StepKeeps(s, events[0]);
      Drains(Step(s, events[0]), events[1..]);
    }
  }

  lemma {:induction false} StaysEmpty(s: State, events: seq<Event>)
    requires s.queue == [] && Happen(s, events)
    ensures Run(s, events).queue == []
    decreases |events|
  {
    if events != [] {
      StaysEmpty(Step(s, events[0]), events[1..]);
    }
  }

  /**
   At most `n` coroutines that never return, scheduled in any interleaving on `n` workers: each is taken at most
   once, by a worker of its own; while one is queued some worker can step towards it; and once none is queued
   every scheduled coroutine runs inside its own worker.
   */
  lemma EachTakesOne(n: nat, events: seq<Event>)
    requires forall i :: 0 <= i < |events| ==> Lasting(events[i])
    requires |Run(Fresh(n), events).scheduled| <= n
    ensures var s := Run(Fresh(n), events);
      && (forall i, j :: 0 <= i < j < |s.taken| ==> s.taken[i].0 != s.taken[j].0)
      && (s.queue != [] ==> exists e :: Enabled(s, e) && Towards(e))
      && (s.queue == [] ==>
            && Handles(s.taken) == s.scheduled
            && forall i :: 0 <= i < |s.taken| ==> Is(s, s.taken[i].0, Inside(s.taken[i].1)))
  {
    FreshKeeps(n);
    NobodyBusy(n);
    RunKeeps(Fresh(n), events);
    RunKeepsOccupied(Fresh(n), events);
    hide Run;
    var s := Run(Fresh(n), events);
    if s.queue != [] {
      var e := StepAhead(s);
    }
  }

  lemma {:induction false} HappeningLasts(s: State, events: seq<Event>)
    requires Happen(s, events)
    ensures (forall i :: 0 <= i < |events| ==> Lasting(events[i])) && Run(s, events).scheduled == s.scheduled
    decreases |events|
  {
    if events != [] {
      HappeningLasts(Step(s, events[0]), events[1..]);
      assert forall i :: 1 <= i < |events| ==> events[i] == events[1..][i - 1];
    }
  }

  /** No worker can step towards the queue. */
  ghost predicate AtRest(s: State) {
    forall e :: Towards(e) ==> !Enabled(s, e)
  }

  /**
   From every state reached while at most `n` lasting coroutines were scheduled on `n` workers, let the workers
   step in whatever order until none can step towards the queue, or long enough: then the queue is empty and every
   scheduled coroutine runs inside a worker of its own.
   */
  lemma EveryHandleSettles(n: nat, events: seq<Event>, more: seq<Event>)
    requires forall i :: 0 <= i < |events| ==> Lasting(events[i])
    requires |Run(Fresh(n), events).scheduled| <= n && Happen(Run(Fresh(n), events), more)
    requires AtRest(Run(Run(Fresh(n), events), more)) || |more| > Sum(Run(Fresh(n), events).workers, Far)
    ensures var s := Run(Fresh(n), events);
      var end := Run(s, more);
      && end.queue == [] && Handles(end.taken) == s.scheduled
      && (forall i :: 0 <= i < |end.taken| ==> Is(end, end.taken[i].0, Inside(end.taken[i].1)))
      && (forall i, j :: 0 <= i < j < |end.taken| ==> end.taken[i].0 != end.taken[j].0)
  {
    FreshKeeps(n);
    NobodyBusy(n);
    RunKeeps(Fresh(n), events);
    RunKeepsOccupied(Fresh(n), events);
    var s := Run(Fresh(n), events);
    HappeningLasts(s, more);
    RunKeeps(s, more);
    RunKeepsOccupied(s, more);
    hide Run, Happen, Sum;
    var end := Run(s, more);
    if |more| > Sum(s.workers, Far) {
      Drains(s, more);
    } else if end.queue != [] {
      var e := StepAhead(end);
    }
  }

  // ---- Stopping ----

  /** Stop is requested without the mutex, so its `notify_all` can come just before a worker falls asleep. */
  ghost predicate Resting(s: State) {
    s.stop && forall w :: 0 <= w < |s.workers| ==> s.workers[w] !in {Asleep, Falling}
  }

  lemma {:induction false} NoneSleeps(s: State, events: seq<Event>)
    requires Resting(s)
    ensures !Sleeper(Run(s, events))
    decreases |events|
  {
    if events != [] {
      NoneSleeps(if Enabled(s, events[0]) then Step(s, events[0]) else s, events[1..]);
    }
  }

  /**
   After a requested stop and its notification no worker ever sleeps, whatever happens, exactly when at the
   notification none stood between its test of the condition and its sleep.
   */
  lemma StopReachesAllExactly(s: State)
    requires s.stop
    ensures (forall events :: !Sleeper(Run(Step(s, NotifyAll), events))) <==>
            (forall w :: 0 <= w < |s.workers| ==> s.workers[w] != Falling)
  {
    var n := Step(s, NotifyAll);
    if forall w :: 0 <= w < |s.workers| ==> s.workers[w] != Falling {
      forall events ensures !Sleeper(Run(n, events)) {
        NoneSleeps(n, events);
      }
    } else {
      var w :| 0 <= w < |s.workers| && s.workers[w] == Falling;
      assert n.workers[w] == Falling;
      RunCons(n, Sleep(w), []);
      assert Run(n, [Sleep(w)] + []).workers[w] == Asleep;
    }
  }

  function OneWorker(w: Worker, mutex: Option<nat>, stop: bool): State {
    State([w], mutex, [], stop, [], [])
  }

  lemma FindsNothing()
    ensures Run(Fresh(1), [Enter(0), Lock(0), Test(0)]) == OneWorker(Falling, Some(0), false)
  {
    assert Fresh(1) == OneWorker(AtHead, None, false);
    RunCons(OneWorker(AtHead, None, false), Enter(0), [Lock(0), Test(0)]);
    RunCons(OneWorker(Locking, None, false), Lock(0), [Test(0)]);
    RunCons(OneWorker(Testing, Some(0), false), Test(0), []);
  }

  lemma SleepsBehindStop()
    ensures Run(OneWorker(Falling, Some(0), false), [RequestStop, NotifyAll, Sleep(0)]) == OneWorker(Asleep, None, true)
  {
    RunCons(OneWorker(Falling, Some(0), false), RequestStop, [NotifyAll, Sleep(0)]);
    RunCons(OneWorker(Falling, Some(0), true), NotifyAll, [Sleep(0)]);
    assert WakeAll([Falling]) == [Falling];
    RunCons(OneWorker(Falling, Some(0), true), Sleep(0), []);
  }

  /** Such a run: one worker finds nothing to do, and falls asleep behind the stop and its notification. */
  lemma StopMissed()
    ensures Run(Fresh(1), [Enter(0), Lock(0), Test(0)] + [RequestStop, NotifyAll, Sleep(0)])
         == OneWorker(Asleep, None, true)
  {
    FindsNothing();
    SleepsBehindStop();
    hide Run;
    RunAppend(Fresh(1), [Enter(0), Lock(0), Test(0)], [RequestStop, NotifyAll, Sleep(0)]);
  }

  lemma {:induction false} RunAppend(s: State, a: seq<Event>, b: seq<Event>)
    ensures Run(s, a + b) == Run(Run(s, a), b)
    decreases |a|
  {
    hide Step, Enabled;
    if a == [] {
      assert a + b == b;
    } else {
      assert (a + b)[1..] == a[1..] + b;
      RunAppend(if Enabled(s, a[0]) then Step(s, a[0]) else s, a[1..], b);
    }
  }

  lemma RunCons(s: State, e: Event, events: seq<Event>)
    requires Enabled(s, e)
    ensures Run(s, [e] + events) == Run(Step(s, e), events)
  {
    assert ([e] + events)[1..] == events;
  }

  // ---- The pool in place ----

  class Pool {
    var workers: seq<Worker>
    var mutex: Option<nat>
    var queue: seq<nat>
    var stop: bool
    ghost var scheduled: seq<nat>
    ghost var taken: seq<(nat, nat)>

    ghost function Now(): State
      reads this
    {
      State(workers, mutex, queue, stop, scheduled, taken)
    }

    constructor (threadCount: nat)
      ensures Now() == Fresh(threadCount)
      ensures |workers| == threadCount && (forall w :: 0 <= w < threadCount ==> workers[w] == AtHead)
      ensures mutex.None? && queue == [] && !stop && scheduled == [] && taken == []
    {
      workers, mutex, queue, stop := seq(threadCount, _ => AtHead), None, [], false;
      scheduled, taken := [], [];
    }

    /** `enqueue`, all of it under the mutex. `sleeper` is the worker that `notify_one` picks. */
    method Enqueue(handle: nat, sleeper: nat)
      requires mutex.None? && (Asleep in workers ==> sleeper < |workers| && workers[sleeper] == Asleep)
      modifies this
      ensures Now() == Step(old(Now()), Schedule(handle, sleeper))
      ensures queue == old(queue) + [handle] && scheduled == old(scheduled) + [handle] && taken == old(taken)
      ensures mutex == old(mutex) && stop == old(stop) && |workers| == |old(workers)|
      ensures forall w :: 0 <= w < |workers| ==>
                workers[w] == if w == sleeper && old(workers)[w] == Asleep then Woken else old(workers)[w]
    {
      queue := queue + [handle];
      scheduled := scheduled + [handle];
      NotifyOne(sleeper);
    }

    method NotifyOne(sleeper: nat)
      requires Asleep in workers ==> sleeper < |workers| && workers[sleeper] == Asleep
      modifies this`workers
      ensures workers == if Sleeper(old(Now())) then old(workers)[sleeper := Woken] else old(workers)
    {
      if sleeper < |workers| && workers[sleeper] == Asleep {
        workers := workers[sleeper := Woken];
      }
    }

    /** The loop condition of `thread_loop`. */
    method AtLoopHead(w: nat)
      requires w < |workers| && workers[w] == AtHead
      modifies this`workers
      ensures Now() == Step(old(Now()), Enter(w))
      ensures workers == old(workers)[w := if stop then Gone else Locking]
    {
      if !stop {
        workers := workers[w := Locking];
      } else {
        workers := workers[w := Gone];
      }
    }

    /** The lock, first taken or taken again behind a wait. */
    method Acquire(w: nat)
      requires mutex.None? && w < |workers| && (workers[w] == Locking || workers[w] == Woken)
      modifies this`workers, this`mutex
      ensures Now() == Step(old(Now()), Lock(w))
      ensures mutex == Some(w) && workers == old(workers)[w := Testing]
    {
      mutex := Some(w);
      workers := workers[w := Testing];
    }

    /** The predicate of the wait. */
    method TestCondition(w: nat)
      requires w < |workers| && workers[w] == Testing
      modifies this`workers
      ensures Now() == Step(old(Now()), Test(w))
      ensures workers == old(workers)[w := if queue == [] && !stop then Falling else Ready]
    {
      if queue != [] || stop {
        workers := workers[w := Ready];
      } else {
        workers := workers[w := Falling];
      }
    }

    /** The wait releases the mutex and sleeps in one step. */
    method FallAsleep(w: nat)
      requires w < |workers| && workers[w] == Falling
      modifies this`workers, this`mutex
      ensures Now() == Step(old(Now()), Sleep(w))
      ensures mutex.None? && workers == old(workers)[w := Asleep]
    {
      mutex := None;
      workers := workers[w := Asleep];
    }

    /** A wake-up that nobody sent. */
    method WakeSpuriously(w: nat)
      requires w < |workers| && workers[w] == Asleep
      modifies this`workers
      ensures Now() == Step(old(Now()), Spurious(w))
      ensures workers == old(workers)[w := Woken]
    {
      workers := workers[w := Woken];
    }

    /** Behind the wait: leave when stopped, else pop the front, unlock and resume it. */
    method TakeFront(w: nat)
      requires w < |workers| && workers[w] == Ready && (stop || queue != [])
      modifies this
      ensures Now() == Step(old(Now()), Pop(w))
      ensures mutex.None? && scheduled == old(scheduled) && stop == old(stop)
      ensures if stop then
                queue == old(queue) && taken == old(taken) && workers == old(workers)[w := Gone]
              else
                && [old(queue)[0]] + queue == old(queue) && taken == old(taken) + [(w, old(queue)[0])]
                && workers == old(workers)[w := Inside(old(queue)[0])]
    {
      if stop {
        mutex, workers := None, workers[w := Gone];
        return;
      }
      var handle := queue[0];
      queue := queue[1..];
      mutex := None;
      workers := workers[w := Inside(handle)];
      taken := taken + [(w, handle)];
    }

    method ComeBack(w: nat)
      requires w < |workers| && workers[w].Inside?
      modifies this`workers
      ensures Now() == Step(old(Now()), Return(w))
      ensures workers == old(workers)[w := AtHead]
    {
      workers := workers[w := AtHead];
    }

    /** The destructor's two steps, neither of them under the mutex. */
    method StopRequested()
      modifies this`stop
      ensures Now() == Step(old(Now()), RequestStop)
      ensures stop
    {
      stop := true;
    }

    method WakeEveryone()
      modifies this`workers
      ensures Now() == Step(old(Now()), NotifyAll)
      ensures |workers| == |old(workers)|
      ensures forall w :: 0 <= w < |workers| ==>
                workers[w] == if old(workers)[w] == Asleep then Woken else old(workers)[w]
    {
      workers := WakeAll(workers);
    }
  }
}
