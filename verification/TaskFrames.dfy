/**
 Coroutine tasks: who owns a frame, and who destroys it. Who goes on when a frame finishes is in `TaskCalls`.

 A task object holds the handle of a frame until it is moved from, detached or destroyed; an awaited frame
 holds a link to its caller. `Step` is every operation on them as a machine on values, `Coroutines` the same
 operations in place. Ordinary code may use any task at any time, so the theorems are about every interleaving.
 */
module TaskFrames {
  import opened Prelude

  datatype Status = Created | Running | Suspended | Awaiting(callee: nat) | Returning | Done

  /**
   A frame with its promise. The second line is bookkeeping, the code has no such fields: the task object holding
   it, the moment at which it was last awaited, how often `destroy` was called, and how many wake-ups are owed to it
   by whomever it suspended for, a completion or the thread pool's queue.
   */
  datatype Frame = Frame(
    status: Status, detached: bool, caller: Option<nat>, value: Option<int>,
    owner: nat, since: nat, destroyed: nat, owed: nat)

  /** A task object: whether it still exists, and its handle. */
  datatype Task = Task(alive: bool, handle: Option<nat>)

  /** `await_resume` on a task with the handle `callee`: whether the frame was there, and what it held. */
  datatype Read = Read(callee: Option<nat>, live: bool, value: Option<int>)

  /**
   `resumed` logs the callees whose finish resumed a caller; `leaked` the frames detached after they were done,
   `orphaned` those whose task object was given up while a caller waited for them, and `doubled` those resumed
   while they ran or after their end, which is undefined in the original and leaves the frame as it is here.
   */
  datatype State = State(
    frames: seq<Frame>, tasks: seq<Task>, clock: nat,
    resumed: seq<nat>, results: seq<Read>, leaked: seq<nat>, orphaned: seq<nat>, doubled: seq<nat>)

  const EMPTY: State := State([], [], 1, [], [], [], [], [])

  datatype Event =
    | Create
    | Move(task: nat)
    | Start(task: nat)
    | Await(caller: nat, task: nat)
    | Suspend(frame: nat)
    | Wake(frame: nat)
    | Return(frame: nat, value: int)
    | Finish(frame: nat)
    | Drop(task: nat)
    | Detach(task: nat)

  predicate Has(s: State, t: nat) {
    t < |s.tasks| && s.tasks[t].alive && (s.tasks[t].handle.Some? ==> s.tasks[t].handle.value < |s.frames|)
  }

  predicate Is(s: State, f: nat, status: Status) {
    f < |s.frames| && s.frames[f].status == status
  }

  /** The frame of a task that has one. */
  function FrameOf(s: State, t: nat): Frame
    requires Has(s, t) && s.tasks[t].handle.Some?
  {
    s.frames[s.tasks[t].handle.value]
  }

  /**
   What the code may do: resume or await any task whatever its frame is doing, since it only tests for no handle and
   for the end. `detach` follows the handle without a test, so there must be one. A wake-up comes when one is owed.
   */
  predicate Enabled(s: State, e: Event) {
    match e
    case Create => true
    case Move(t) => Has(s, t)
    case Start(t) => Has(s, t)
    case Await(c, t) => Is(s, c, Running) && Has(s, t)
    case Suspend(f) => Is(s, f, Running)
    case Wake(f) => f < |s.frames| && s.frames[f].owed > 0
    case Return(f, _) => Is(s, f, Running)
    case Finish(f) => Is(s, f, Returning) && (s.frames[f].caller.Some? ==> s.frames[f].caller.value < |s.frames|)
    case Drop(t) => Has(s, t)
    case Detach(t) => Has(s, t) && s.tasks[t].handle.Some?
  }

  function With(s: State, f: nat, frame: Frame): State
    requires f < |s.frames|
  {
    s.(frames := s.frames[f := frame])
  }

  function ReadOf(s: State, f: nat): Read {
    if f < |s.frames| then Read(Some(f), s.frames[f].destroyed == 0, s.frames[f].value) else Read(Some(f), false, None)
  }

  /** `coroutine_handle::resume`: a frame that awaits a callee goes on by reading that callee, ended or not. */
  function Resumed(s: State, f: nat): State
    requires f < |s.frames|
  {
    match s.frames[f].status
    case Created => With(s, f, s.frames[f].(status := Running))
    case Suspended => With(s, f, s.frames[f].(status := Running))
    case Awaiting(h) => With(s, f, s.frames[f].(status := Running)).(results := s.results + [ReadOf(s, h)])
    case _ => s.(doubled := s.doubled + [f])
  }

  predicate Awaited(frame: Frame) {
    frame.caller.Some? && !frame.status.Done?
  }

  /** Setting the detached flag of a task's frame. */
  function Abandoned(s: State, f: nat): State
    requires f < |s.frames|
  {
    With(s, f, s.frames[f].(detached := true)).(
      leaked := if s.frames[f].status.Done? then s.leaked + [f] else s.leaked,
      orphaned := if Awaited(s.frames[f]) then s.orphaned + [f] else s.orphaned)
  }

  function Started(s: State, t: nat): State
    requires Enabled(s, Start(t))
  {
    if s.tasks[t].handle.None? || FrameOf(s, t).status.Done? then s else Resumed(s, s.tasks[t].handle.value)
  }

  /**
   `co_await`: a null or finished task is read at once; any other learns its caller and is resumed in its place. The
   caller is suspended by then, so a frame that awaits itself goes on.
   */
  function Linked(s: State, c: nat, t: nat): State
    requires Enabled(s, Await(c, t))
  {
    if s.tasks[t].handle.None? then s.(results := s.results + [Read(None, false, None)])
    else
      var f := s.tasks[t].handle.value;
      if s.frames[f].status.Done? then s.(results := s.results + [ReadOf(s, f)])
      else
        var s1 := With(s, c, s.frames[c].(status := Awaiting(f)));
        Resumed(With(s1, f, s1.frames[f].(caller := Some(c), since := s.clock)).(clock := s.clock + 1), f)
  }

  /** The frame at its end: destroyed if it is detached. */
  function Ended(s: State, f: nat): State
    requires f < |s.frames|
  {
    var frame := s.frames[f];
    With(s, f, frame.(status := Done, destroyed := if frame.detached then frame.destroyed + 1 else frame.destroyed))
  }

  /** The final suspend point: behind its end the frame's caller is resumed. */
  function Finished(s: State, f: nat): State
    requires Enabled(s, Finish(f))
  {
    if s.frames[f].caller.None? then Ended(s, f)
    else Resumed(Ended(s, f).(resumed := s.resumed + [f]), s.frames[f].caller.value)
  }

  function Woken(s: State, f: nat): State
    requires Enabled(s, Wake(f))
  {
    Resumed(With(s, f, s.frames[f].(owed := s.frames[f].owed - 1)), f)
  }

  /** The destructor of a task object. */
  function Dropped(s: State, t: nat): State
    requires Enabled(s, Drop(t))
  {
    var s1 := s.(tasks := s.tasks[t := Task(false, None)]);
    if s.tasks[t].handle.None? then s1
    else
      var f := s.tasks[t].handle.value;
      if s.frames[f].status.Done? then With(s1, f, s.frames[f].(destroyed := s.frames[f].destroyed + 1))
      else Abandoned(s1, f)
  }

  function Moved(s: State, t: nat): State
    requires Enabled(s, Move(t))
  {
    var s1 := s.(tasks := s.tasks[t := Task(true, None)] + [Task(true, s.tasks[t].handle)]);
    if s.tasks[t].handle.None? then s1
    else With(s1, s.tasks[t].handle.value, FrameOf(s, t).(owner := |s.tasks|))
  }

  function Step(s: State, e: Event): State
    requires Enabled(s, e)
  {
    match e
    case Create =>
      s.(frames := s.frames + [Frame(Created, false, None, None, |s.tasks|, 0, 0, 0)],
         tasks := s.tasks + [Task(true, Some(|s.frames|))])
    case Move(t) => Moved(s, t)
    case Start(t) => Started(s, t)
    case Await(c, t) => Linked(s, c, t)
    case Suspend(f) => With(s, f, s.frames[f].(status := Suspended, owed := s.frames[f].owed + 1))
    case Wake(f) => Woken(s, f)
    case Return(f, v) => With(s, f, s.frames[f].(status := Returning, value := Some(v)))
    case Finish(f) => Finished(s, f)
    case Drop(t) => Dropped(s, t)
    case Detach(t) => Abandoned(s.(tasks := s.tasks[t := Task(true, None)]), s.tasks[t].handle.value)
  }

  /** The states of a run; events that are not enabled do not happen. */
  function Run(s: State, events: seq<Event>): State
    decreases |events|
  {
    if events == [] then s
    else Run(if Enabled(s, events[0]) then Step(s, events[0]) else s, events[1..])
  }

  /** One more event is one more step, if it can happen. */
  lemma {:induction false} RunNext(s: State, events: seq<Event>, e: Event)
    ensures var end := Run(s, events); Run(s, events + [e]) == if Enabled(end, e) then Step(end, e) else end
    decreases |events|
  {
    hide Enabled, Step;
    if events == [] {
      assert [] + [e] == [e] && [e][1..] == [];
    } else {
      assert (events + [e])[1..] == events[1..] + [e];
      RunNext(if Enabled(s, events[0]) then Step(s, events[0]) else s, events[1..], e);
    }
  }

  // ---- The invariant ----

  predicate Live(frame: Frame) {
    frame.destroyed == 0
  }

  /** A task's handle is a live frame that is not detached and that it alone owns. */
  ghost predicate Owns(s: State, t: nat)
    requires t < |s.tasks|
  {
    s.tasks[t].handle.Some? ==>
      var f := s.tasks[t].handle.value;
      && s.tasks[t].alive && f < |s.frames|
      && Live(s.frames[f]) && !s.frames[f].detached && s.frames[f].owner == t
  }

  /** A live frame is owned unless detached, and a destroyed one is done and was destroyed once. */
  ghost predicate Kept(s: State, f: nat)
    requires f < |s.frames|
  {
    var frame := s.frames[f];
    && (Live(frame) && !frame.detached ==>
          frame.owner < |s.tasks| && s.tasks[frame.owner] == Task(true, Some(f)))
    && frame.destroyed <= 1 && (!Live(frame) ==> frame.status.Done?)
    && (frame.status in {Returning, Done} ==> frame.value.Some?)
    && (frame.status.Created? ==> frame.caller.None?) && (frame.caller.Some? ==> frame.caller.value < |s.frames|)
    && (Live(frame) && frame.status.Done? && frame.detached <==> f in s.leaked)
    && (f in s.orphaned ==> frame.detached && frame.caller.Some?)
  }

  ghost predicate Ownership(s: State) {
    && (forall t :: 0 <= t < |s.tasks| ==> Owns(s, t))
    && (forall f :: 0 <= f < |s.frames| ==> Kept(s, f))
    && (forall f :: f in s.leaked || f in s.orphaned ==> f < |s.frames|)
  }

  // ---- Every operation keeps it ----

  /** Pausing, going on, being awaited and setting the value do not touch ownership. */
  predicate Turns(was: Frame, now: Frame, n: nat) {
    && now == was.(status := now.status, value := now.value, owed := now.owed, caller := now.caller, since := now.since)
    && !was.status.Done? && !now.status.Created? && !now.status.Done?
    && (now.status.Returning? ==> now.value.Some?) && (was.value.Some? ==> now.value.Some?)
    && (was.caller.Some? ==> now.caller.Some?) && (now.caller.Some? ==> now.caller.value < n)
  }

  lemma TurnKeeps(s: State, f: nat, frame: Frame)
    requires Ownership(s) && f < |s.frames| && (Turns(s.frames[f], frame, |s.frames|) || frame == s.frames[f])
    ensures Ownership(With(s, f, frame))
  {
    var n := With(s, f, frame);
    forall t | 0 <= t < |n.tasks| ensures Owns(n, t) {
      assert Owns(s, t);
    }
    forall g | 0 <= g < |n.frames| ensures Kept(n, g) {
      assert Kept(s, g);
    }
  }

  /** The logs that ownership does not mention. */
  lemma OtherLogsKeep(s: State, n: State)
    requires Ownership(s) && n.frames == s.frames && n.tasks == s.tasks
    requires n.leaked == s.leaked && n.orphaned == s.orphaned
    ensures Ownership(n)
  {
    assert forall t :: 0 <= t < |n.tasks| && Owns(s, t) ==> Owns(n, t);
    assert forall f :: 0 <= f < |n.frames| && Kept(s, f) ==> Kept(n, f);
  }

  lemma ResumeKeeps(s: State, f: nat)
    requires Ownership(s) && f < |s.frames|
    ensures Ownership(Resumed(s, f))
  {
    assert Kept(s, f);
    var frame := s.frames[f].(status := Running);
    if s.frames[f].status in {Created, Suspended} || s.frames[f].status.Awaiting? {
      assert Turns(s.frames[f], frame, |s.frames|);
      hide Ownership;
      TurnKeeps(s, f, frame);
      OtherLogsKeep(With(s, f, frame), Resumed(s, f));
    } else {
      hide Ownership;
      OtherLogsKeep(s, Resumed(s, f));
    }
  }

  lemma CreateKeeps(s: State)
    requires Ownership(s)
    ensures Ownership(Step(s, Create))
  {
    var n := Step(s, Create);
    forall t | 0 <= t < |n.tasks| ensures Owns(n, t) {
      if t < |s.tasks| { assert Owns(s, t); }
    }
    forall f | 0 <= f < |n.frames| ensures Kept(n, f) {
      if f < |s.frames| { assert Kept(s, f); }
    }
  }

  lemma MoveKeeps(s: State, t: nat)
    requires Ownership(s) && Enabled(s, Move(t))
    ensures Ownership(Step(s, Move(t)))
  {
    var n := Step(s, Move(t));
    assert Owns(s, t);
    forall u | 0 <= u < |n.tasks| ensures Owns(n, u) {
      if u < |s.tasks| { assert Owns(s, u); }
    }
    forall f | 0 <= f < |n.frames| ensures Kept(n, f) {
      assert Kept(s, f);
    }
  }

  lemma AwaitKeeps(s: State, c: nat, t: nat)
    requires Ownership(s) && Enabled(s, Await(c, t))
    ensures Ownership(Step(s, Await(c, t)))
  {
    if s.tasks[t].handle.None? || FrameOf(s, t).status.Done? {
      hide Ownership;
      OtherLogsKeep(s, Step(s, Await(c, t)));
    } else {
      var f := s.tasks[t].handle.value;
      var waiting := s.frames[c].(status := Awaiting(f));
      assert Kept(s, c) && Turns(s.frames[c], waiting, |s.frames|);
      LinkKeeps(s, c, f, waiting);
    }
  }

  lemma LinkKeeps(s: State, c: nat, f: nat, waiting: Frame)
    requires Ownership(s) && c < |s.frames| && f < |s.frames| && Turns(s.frames[c], waiting, |s.frames|)
    requires !s.frames[f].status.Done?
    ensures var s1 := With(s, c, waiting);
      Ownership(Resumed(With(s1, f, s1.frames[f].(caller := Some(c), since := s.clock)).(clock := s.clock + 1), f))
  {
    var s1 := With(s, c, waiting);
    TurnKeeps(s, c, waiting);
    var started := if s1.frames[f].status.Created? then Running else s1.frames[f].status;
    var callee := s1.frames[f].(caller := Some(c), since := s.clock, status := started);
    assert Kept(s1, f) && Turns(s1.frames[f], callee, |s.frames|);
    TurnKeeps(s1, f, callee);
    var s2 := With(s1, f, callee);
    var linked := With(s1, f, s1.frames[f].(caller := Some(c), since := s.clock)).(clock := s.clock + 1);
    hide Ownership, Turns;
    if s1.frames[f].status.Created? {
      OtherLogsKeep(s2, Resumed(linked, f));
    } else {
      OtherLogsKeep(s2, linked);
      ResumeKeeps(linked, f);
    }
  }

  lemma EndKeeps(s: State, f: nat)
    requires Ownership(s) && f < |s.frames| && s.frames[f].status.Returning?
    ensures Ownership(Ended(s, f))
  {
    var n := Ended(s, f);
    assert Kept(s, f);
    forall u | 0 <= u < |n.tasks| ensures Owns(n, u) {
      assert Owns(s, u);
    }
    forall g | 0 <= g < |n.frames| ensures Kept(n, g) {
      assert Kept(s, g);
    }
  }

  lemma FinishKeeps(s: State, f: nat)
    requires Ownership(s) && Enabled(s, Finish(f))
    ensures Ownership(Step(s, Finish(f)))
  {
    EndKeeps(s, f);
    hide Ownership;
    if s.frames[f].caller.Some? {
      OtherLogsKeep(Ended(s, f), Ended(s, f).(resumed := s.resumed + [f]));
      ResumeKeeps(Ended(s, f).(resumed := s.resumed + [f]), s.frames[f].caller.value);
    }
  }

  /** A wake-up is one less owed, whatever the frame is doing. */
  lemma WakeKeeps(s: State, f: nat)
    requires Ownership(s) && Enabled(s, Wake(f))
    ensures Ownership(Step(s, Wake(f)))
  {
    var n := With(s, f, s.frames[f].(owed := s.frames[f].owed - 1));
    forall t | 0 <= t < |n.tasks| ensures Owns(n, t) {
      assert Owns(s, t);
    }
    forall g | 0 <= g < |n.frames| ensures Kept(n, g) {
      assert Kept(s, g);
    }
    hide Ownership;
    ResumeKeeps(n, f);
  }

  lemma AbandonKeeps(s: State, t: nat, gone: Task)
    requires Ownership(s) && Has(s, t) && s.tasks[t].handle.Some? && gone.handle.None?
    ensures Ownership(Abandoned(s.(tasks := s.tasks[t := gone]), s.tasks[t].handle.value))
  {
    var g := s.tasks[t].handle.value;
    var n := Abandoned(s.(tasks := s.tasks[t := gone]), g);
    assert Owns(s, t);
    assert forall f :: f in n.leaked <==> f in s.leaked || (f == g && s.frames[g].status.Done?);
    assert forall f :: f in n.orphaned <==> f in s.orphaned || (f == g && Awaited(s.frames[g]));
    forall u | 0 <= u < |n.tasks| ensures Owns(n, u) {
      assert Owns(s, u);
    }
    forall f | 0 <= f < |n.frames| ensures Kept(n, f) {
      assert Kept(s, f);
    }
  }

  lemma DropKeeps(s: State, t: nat)
    requires Ownership(s) && Enabled(s, Drop(t))
    ensures Ownership(Step(s, Drop(t)))
  {
    if s.tasks[t].handle.Some? && !FrameOf(s, t).status.Done? {
      AbandonKeeps(s, t, Task(false, None));
    } else {
      var n := Step(s, Drop(t));
      assert Owns(s, t);
      forall u | 0 <= u < |n.tasks| ensures Owns(n, u) {
        assert Owns(s, u);
      }
      forall f | 0 <= f < |n.frames| ensures Kept(n, f) {
        assert Kept(s, f);
      }
    }
  }

  lemma PauseKeeps(s: State, e: Event)
    requires Ownership(s) && Enabled(s, e) && (e.Suspend? || e.Return?)
    ensures Ownership(Step(s, e))
  {
    assert Kept(s, e.frame) && Turns(s.frames[e.frame], Step(s, e).frames[e.frame], |s.frames|);
    hide Ownership, Turns;
    TurnKeeps(s, e.frame, Step(s, e).frames[e.frame]);
  }

  /** Whatever is done to whichever task at whichever moment, ownership stays. */
  lemma StepKeepsOwnership(s: State, e: Event)
    requires Ownership(s) && Enabled(s, e)
    ensures Ownership(Step(s, e))
  {
    hide Ownership;
    match e
    case Create => CreateKeeps(s);
    case Move(t) => MoveKeeps(s, t);
    case Start(t) =>
      if Step(s, e) != s {
        ResumeKeeps(s, s.tasks[t].handle.value);
      }
    case Await(c, t) => AwaitKeeps(s, c, t);
    case Wake(f) => WakeKeeps(s, f);
    case Finish(f) => FinishKeeps(s, f);
    case Drop(t) => DropKeeps(s, t);
    case Detach(t) => AbandonKeeps(s, t, Task(true, None));
    case _ => PauseKeeps(s, e);
  }

  lemma {:induction false} RunKeepsOwnership(s: State, events: seq<Event>)
    requires Ownership(s)
    ensures Ownership(Run(s, events))
    decreases |events|
  {
    hide Ownership, Step, Enabled;
    if events != [] {
      if Enabled(s, events[0]) {
        StepKeepsOwnership(s, events[0]);
      }
      RunKeepsOwnership(if Enabled(s, events[0]) then Step(s, events[0]) else s, events[1..]);
    }
  }

  lemma EmptyIsOwned()
    ensures Ownership(EMPTY)
  {
  }

  // ---- Ownership ----

  ghost predicate OwnedBy(s: State, f: nat, t: nat) {
    t < |s.tasks| && s.tasks[t].handle == Some(f)
  }

  /**
   In every state of every run a live frame is either held by exactly one task or detached, never both and never
   neither; no frame is destroyed twice, and none before it is done.
   */
  lemma OneOwner(events: seq<Event>, f: nat)
    requires f < |Run(EMPTY, events).frames|
    ensures var s := Run(EMPTY, events);
      var frame := s.frames[f];
      && (forall t, u :: OwnedBy(s, f, t) && OwnedBy(s, f, u) ==> t == u)
      && (Live(frame) ==> (frame.detached <==> !exists t :: OwnedBy(s, f, t)))
      && (!Live(frame) ==> frame.destroyed == 1 && frame.status.Done? && !exists t :: OwnedBy(s, f, t))
  {
    EmptyIsOwned();
    RunKeepsOwnership(EMPTY, events);
    hide Run;
    var s := Run(EMPTY, events);
    assert Kept(s, f);
    assert forall t :: OwnedBy(s, f, t) ==> Owns(s, t);
    if Live(s.frames[f]) && !s.frames[f].detached {
      assert OwnedBy(s, f, s.frames[f].owner);
    }
  }

  /** A finished frame is still owned, or has been destroyed. */
  ghost predicate Settled(s: State, f: nat)
    requires f < |s.frames|
  {
    s.frames[f].status.Done? ==> !Live(s.frames[f]) || exists t :: OwnedBy(s, f, t)
  }

  /** No task of the run is detached after its frame has finished. */
  ghost predicate DetachesEarly(s: State, events: seq<Event>)
    decreases |events|
  {
    events == [] ||
    (if Enabled(s, events[0]) then
       && (events[0].Detach? ==> !FrameOf(s, events[0].task).status.Done?)
       && DetachesEarly(Step(s, events[0]), events[1..])
     else DetachesEarly(s, events[1..]))
  }

  lemma StepLeaks(s: State, e: Event)
    requires Enabled(s, e)
    ensures s.leaked <= Step(s, e).leaked
    ensures s.leaked == Step(s, e).leaked <==> (e.Detach? ==> !FrameOf(s, e.task).status.Done?)
  {
  }

  lemma {:induction false} RunLeaks(s: State, events: seq<Event>)
    ensures s.leaked <= Run(s, events).leaked
    ensures s.leaked == Run(s, events).leaked <==> DetachesEarly(s, events)
    decreases |events|
  {
    if events != [] {
      if Enabled(s, events[0]) {
        StepLeaks(s, events[0]);
      }
      hide Step, Enabled;
      RunLeaks(if Enabled(s, events[0]) then Step(s, events[0]) else s, events[1..]);
    }
  }

  /** Every finished frame is owned or destroyed exactly when nobody detached a task that was done. */
  lemma FinishedExactly(events: seq<Event>)
    ensures var s := Run(EMPTY, events);
      (forall f :: 0 <= f < |s.frames| ==> Settled(s, f)) <==> DetachesEarly(EMPTY, events)
  {
    EmptyIsOwned();
    RunKeepsOwnership(EMPTY, events);
    RunLeaks(EMPTY, events);
    hide Run, DetachesEarly;
    var s := Run(EMPTY, events);
    forall f | 0 <= f < |s.frames| ensures Settled(s, f) <==> f !in s.leaked {
      SettledUnlessLeaked(s, f);
    }
    if s.leaked != [] {
      assert s.leaked[0] in s.leaked;
    }
  }

  lemma SettledUnlessLeaked(s: State, f: nat)
    requires Ownership(s) && f < |s.frames|
    ensures Settled(s, f) <==> f !in s.leaked
  {
    assert Kept(s, f);
    if t :| OwnedBy(s, f, t) {
      assert Owns(s, t);
    }
    if Live(s.frames[f]) && !s.frames[f].detached {
      assert OwnedBy(s, f, s.frames[f].owner);
    }
  }

  // ---- Runs on their way to the end ----

  /** A task that is created, resumed and detached, as each client's is, destroys its own frame when it ends. */
  lemma DetachedCleansUp(s: State, v: int)
    requires Ownership(s)
    ensures var f, t := |s.frames|, |s.tasks|;
      var created := Step(s, Create);
      && Enabled(created, Start(t)) && Enabled(Step(created, Start(t)), Detach(t))
      && var detached := Step(Step(created, Start(t)), Detach(t));
         && Enabled(detached, Return(f, v)) && Enabled(Step(detached, Return(f, v)), Finish(f))
         && var end := Step(Step(detached, Return(f, v)), Finish(f));
            end.frames[f].destroyed == 1 && end.frames[..f] == s.frames && end.leaked == s.leaked
  {
  }

  lemma RunCons(s: State, e: Event, events: seq<Event>)
    requires Enabled(s, e)
    ensures Run(s, [e] + events) == Run(Step(s, e), events)
  {
    assert ([e] + events)[1..] == events;
  }

  const FRESH: Frame := Frame(Created, false, None, None, 0, 0, 0, 0)

  /** One fresh frame with its task. */
  const ONE: State := EMPTY.(frames := [FRESH], tasks := [Task(true, Some(0))])

  lemma CreateFirst(events: seq<Event>)
    ensures Run(EMPTY, [Create] + events) == Run(ONE, events)
  {
    RunCons(EMPTY, Create, events);
    assert Step(EMPTY, Create) == ONE;
  }

  /** Detached behind its end, the frame is neither owned nor destroyed. */
  lemma LateDetachLeaks()
    ensures var s := Run(EMPTY, [Create] + [Start(0), Return(0, 1), Finish(0), Detach(0)]);
      |s.frames| == 1 && !Settled(s, 0)
  {
    CreateFirst([Start(0), Return(0, 1), Finish(0), Detach(0)]);
    var s1 := Step(ONE, Start(0));
    var s2 := Step(s1, Return(0, 1));
    RunCons(ONE, Start(0), [Return(0, 1), Finish(0), Detach(0)]);
    RunCons(s1, Return(0, 1), [Finish(0), Detach(0)]);
    EndsAndDetaches(s2);
  }

  lemma EndsAndDetaches(s: State)
    requires |s.frames| == 1 && s.tasks == [Task(true, Some(0))] && !s.frames[0].detached
    requires s.frames[0].status.Returning? && s.frames[0].caller.None? && s.frames[0].destroyed == 0
    ensures var end := Run(s, [Finish(0), Detach(0)]); |end.frames| == 1 && !Settled(end, 0)
  {
    var s1 := Step(s, Finish(0));
    RunCons(s, Finish(0), [Detach(0)]);
    RunCons(s1, Detach(0), []);
    assert Step(s1, Detach(0)).tasks == [Task(true, None)];
  }

  // ---- The operations in place ----

  class Coroutines {
    var frames: seq<Frame>
    var tasks: seq<Task>
    var clock: nat
    ghost var resumed: seq<nat>
    ghost var results: seq<Read>
    ghost var leaked: seq<nat>
    ghost var orphaned: seq<nat>
    ghost var doubled: seq<nat>

    ghost function Now(): State
      reads this
    {
      State(frames, tasks, clock, resumed, results, leaked, orphaned, doubled)
    }

    constructor ()
      ensures Now() == EMPTY && frames == [] && tasks == [] && results == [] && doubled == []
    {
      frames, tasks, clock, resumed, results, leaked, orphaned, doubled := [], [], 1, [], [], [], [], [];
    }

    method CreateTask() returns (t: nat)
      modifies this
      ensures Now() == Step(old(Now()), Create) && t == old(|tasks|)
      ensures frames == old(frames) + [Frame(Created, false, None, None, t, 0, 0, 0)]
      ensures tasks == old(tasks) + [Task(true, Some(|old(frames)|))]
    {
      t := |tasks|;
      frames := frames + [Frame(Created, false, None, None, t, 0, 0, 0)];
      tasks := tasks + [Task(true, Some(|frames| - 1))];
    }

    /** The move constructor: the new task takes the handle, the old one is left with none. */
    method MoveTask(t: nat) returns (u: nat)
      requires t < |tasks| && tasks[t].alive && (tasks[t].handle.Some? ==> tasks[t].handle.value < |frames|)
      modifies this
      ensures Now() == Step(old(Now()), Move(t)) && u == old(|tasks|)
      ensures tasks == old(tasks)[t := Task(true, None)] + [Task(true, old(tasks)[t].handle)]
      ensures var h := old(tasks)[t].handle;
        frames == if h.None? then old(frames) else old(frames)[h.value := old(frames)[h.value].(owner := u)]
    {
      u := |tasks|;
      var handle := tasks[t].handle;
      tasks := tasks[t := tasks[t].(handle := None)] + [Task(true, handle)];
      if handle.Some? {
        frames := frames[handle.value := frames[handle.value].(owner := u)];
      }
    }

    /** `coroutine_handle::resume`, which does not look where the frame is. */
    method ResumeFrame(f: nat)
      requires f < |frames|
      modifies this`frames, this`results, this`doubled
      ensures Now() == Resumed(old(Now()), f)
      ensures var was := old(frames)[f];
        if was.status.Created? || was.status.Suspended? || was.status.Awaiting? then
          frames == old(frames)[f := was.(status := Running)] && doubled == old(doubled)
        else
          frames == old(frames) && doubled == old(doubled) + [f] && results == old(results)
      ensures var was := old(frames)[f];
        && (was.status.Awaiting? && was.status.callee < |frames| ==>
              results == old(results) + [Read(Some(was.status.callee), old(frames)[was.status.callee].destroyed == 0,
                                              old(frames)[was.status.callee].value)])
        && (!was.status.Awaiting? ==> results == old(results))
    {
      match frames[f].status
      case Created => frames := frames[f := frames[f].(status := Running)];
      case Suspended => frames := frames[f := frames[f].(status := Running)];
      case Awaiting(h) =>
        results := results + [ReadOf(Now(), h)];
        frames := frames[f := frames[f].(status := Running)];
      case _ => doubled := doubled + [f];
    }

    method Resume(t: nat)
      requires t < |tasks| && tasks[t].alive && (tasks[t].handle.Some? ==> tasks[t].handle.value < |frames|)
      modifies this
      ensures Now() == Step(old(Now()), Start(t))
      ensures var h := tasks[t].handle;
        if h.None? || old(frames)[h.value].status.Done? then Now() == old(Now())
        else if old(frames)[h.value].status.Running? || old(frames)[h.value].status.Returning? then
          frames == old(frames) && doubled == old(doubled) + [h.value]
        else
          frames == old(frames)[h.value := old(frames)[h.value].(status := Running)] && doubled == old(doubled)
    {
      if tasks[t].handle.None? || frames[tasks[t].handle.value].status.Done? {
        return;
      }
      ResumeFrame(tasks[t].handle.value);
    }

    method AwaitReady(t: nat) returns (ready: bool)
      requires t < |tasks| && tasks[t].alive && (tasks[t].handle.Some? ==> tasks[t].handle.value < |frames|)
      ensures ready <==> tasks[t].handle.None? || FrameOf(Now(), t).status.Done?
    {
      return tasks[t].handle.None? || frames[tasks[t].handle.value].status.Done?;
    }

    /** `await_suspend`: the callee, whatever it is doing, remembers its caller and is resumed in its place. */
    method AwaitSuspend(c: nat, f: nat)
      requires c < |frames| && frames[c].status.Running? && f < |frames|
      modifies this
      ensures var s1 := With(old(Now()), c, old(frames[c]).(status := Awaiting(f)));
        var s2 := With(s1, f, s1.frames[f].(caller := Some(c), since := s1.clock)).(clock := s1.clock + 1);
        Now() == Resumed(s2, f)
      ensures c != f ==>
                && frames[c] == old(frames)[c].(status := Awaiting(f))
                && frames[f].caller == Some(c) && frames[f].since == old(clock)
                && (old(frames)[f].status.Created? || old(frames)[f].status.Suspended? ==> frames[f].status.Running?)
                && (old(frames)[f].status.Running? ==> doubled == old(doubled) + [f])
      ensures c == f ==> frames[c] == old(frames)[c].(caller := Some(c), since := old(clock)) && doubled == old(doubled)
      ensures clock == old(clock) + 1 && tasks == old(tasks) && |frames| == |old(frames)|
      ensures forall g :: 0 <= g < |frames| && g != c && g != f ==> frames[g] == old(frames)[g]
    {
      frames := frames[c := frames[c].(status := Awaiting(f))];
      frames := frames[f := frames[f].(caller := Some(c), since := clock)];
      clock := clock + 1;
      ResumeFrame(f);
    }

    method CoAwait(c: nat, t: nat)
      requires c < |frames| && frames[c].status.Running?
      requires t < |tasks| && tasks[t].alive && (tasks[t].handle.Some? ==> tasks[t].handle.value < |frames|)
      modifies this
      ensures Now() == Step(old(Now()), Await(c, t))
      ensures var h := tasks[t].handle;
        && (h.None? ==> frames == old(frames) && results == old(results) + [Read(None, false, None)])
        && (h.Some? && old(frames)[h.value].status.Done? ==>
              && frames == old(frames)
              && results == old(results) + [Read(h, frames[h.value].destroyed == 0, frames[h.value].value)])
        && (h.Some? && !old(frames)[h.value].status.Done? ==>
              && frames[h.value].caller == Some(c)
              && (h.value != c ==> frames[c] == old(frames)[c].(status := Awaiting(h.value)))
              && (h.value == c ==> frames[c].status.Running? && doubled == old(doubled))
              && (h.value != c && old(frames)[h.value].status in {Running, Returning} ==>
                    frames[h.value].status == old(frames)[h.value].status && doubled == old(doubled) + [h.value])
              && (old(frames)[h.value].status !in {Running, Returning} ==>
                    frames[h.value].status.Running? && doubled == old(doubled)))
    {
      var ready := AwaitReady(t);
      if !ready {
        AwaitSuspend(c, tasks[t].handle.value);
      } else if tasks[t].handle.Some? {
        results := results + [ReadOf(Now(), tasks[t].handle.value)];
      } else {
        results := results + [Read(None, false, None)];
      }
    }

    /** A suspension, whose other end will wake the frame. */
    method SuspendFrame(f: nat)
      requires f < |frames| && frames[f].status.Running?
      modifies this`frames
      ensures Now() == Step(old(Now()), Suspend(f))
      ensures frames == old(frames)[f := old(frames)[f].(status := Suspended, owed := old(frames)[f].owed + 1)]
    {
      frames := frames[f := frames[f].(status := Suspended, owed := frames[f].owed + 1)];
    }

    /** A wake-up by the event loop or a worker. */
    method WakeFrame(f: nat)
      requires f < |frames| && frames[f].owed > 0
      modifies this
      ensures Now() == Step(old(Now()), Wake(f))
      ensures var was := old(frames)[f];
        && (was.status.Created? || was.status.Suspended? || was.status.Awaiting? ==>
              frames == old(frames)[f := was.(status := Running, owed := was.owed - 1)] && doubled == old(doubled))
        && (was.status.Running? || was.status.Returning? || was.status.Done? ==>
              frames == old(frames)[f := was.(owed := was.owed - 1)] && doubled == old(doubled) + [f])
    {
      frames := frames[f := frames[f].(owed := frames[f].owed - 1)];
      ResumeFrame(f);
    }

    method ReturnValue(f: nat, v: int)
      requires f < |frames| && frames[f].status.Running?
      modifies this`frames
      ensures Now() == Step(old(Now()), Return(f, v))
      ensures frames == old(frames)[f := old(frames)[f].(status := Returning, value := Some(v))]
    {
      frames := frames[f := frames[f].(value := Some(v))];
      frames := frames[f := frames[f].(status := Returning)];
    }

    method Destroy(f: nat)
      requires f < |frames|
      modifies this`frames
      ensures frames == old(frames)[f := old(frames[f]).(destroyed := old(frames[f]).destroyed + 1)]
    {
      frames := frames[f := frames[f].(destroyed := frames[f].destroyed + 1)];
    }

    method EndFrame(f: nat)
      requires f < |frames|
      modifies this`frames
      ensures Now() == Ended(old(Now()), f)
      ensures var was := old(frames)[f];
        frames == old(frames)[f := was.(status := Done, destroyed := was.destroyed + if was.detached then 1 else 0)]
    {
      frames := frames[f := frames[f].(status := Done)];
      if frames[f].detached {
        Destroy(f);
      }
    }

    /** `final_awaiter::await_suspend`, and the caller's `await_resume` if there is a caller. */
    method FinalSuspend(f: nat)
      requires f < |frames| && frames[f].status.Returning?
      requires frames[f].caller.Some? ==> frames[f].caller.value < |frames|
      modifies this
      ensures Now() == Step(old(Now()), Finish(f))
      ensures var was := old(frames)[f];
        var ended := was.(status := Done, destroyed := was.destroyed + if was.detached then 1 else 0);
        && (was.caller.None? ==> frames == old(frames)[f := ended] && resumed == old(resumed))
        && (was.caller.Some? ==> resumed == old(resumed) + [f])
        && (was.caller.Some? && old(frames)[was.caller.value].status == Awaiting(f) ==>
              && was.caller.value != f && frames[f] == ended && frames[was.caller.value].status.Running?
              && results == old(results) + [Read(Some(f), ended.destroyed == 0, was.value)])
        && (was.caller.Some? && (was.caller.value == f || old(frames)[was.caller.value].status in {Running, Done}) ==>
              && frames == old(frames)[f := ended] && results == old(results)
              && doubled == old(doubled) + [was.caller.value])
    {
      EndFrame(f);
      var continuation := frames[f].caller;
      if continuation.Some? {
        resumed := resumed + [f];
        ResumeFrame(continuation.value);
      }
    }

    method SetDetached(f: nat)
      requires f < |frames|
      modifies this`frames, this`leaked, this`orphaned
      ensures Now() == Abandoned(old(Now()), f)
      ensures var was := old(frames)[f];
        && frames == old(frames)[f := was.(detached := true)]
        && leaked == old(leaked) + (if was.status.Done? then [f] else [])
        && orphaned == old(orphaned) + (if was.caller.Some? && !was.status.Done? then [f] else [])
    {
      if frames[f].status.Done? {
        leaked := leaked + [f];
      }
      if Awaited(frames[f]) {
        orphaned := orphaned + [f];
      }
      frames := frames[f := frames[f].(detached := true)];
    }

    method DropTask(t: nat)
      requires t < |tasks| && tasks[t].alive && (tasks[t].handle.Some? ==> tasks[t].handle.value < |frames|)
      modifies this
      ensures Now() == Step(old(Now()), Drop(t))
      ensures tasks == old(tasks)[t := Task(false, None)]
      ensures var h := old(tasks)[t].handle;
        frames == if h.None? then old(frames)
                  else if old(frames)[h.value].status.Done? then
                    old(frames)[h.value := old(frames)[h.value].(destroyed := old(frames)[h.value].destroyed + 1)]
                  else old(frames)[h.value := old(frames)[h.value].(detached := true)]
    {
      var handle := tasks[t].handle;
      tasks := tasks[t := Task(false, None)];
      if handle.Some? {
        if frames[handle.value].status.Done? {
          Destroy(handle.value);
        } else {
          SetDetached(handle.value);
        }
      }
    }

    method DetachTask(t: nat)
      requires t < |tasks| && tasks[t].alive && tasks[t].handle.Some? && tasks[t].handle.value < |frames|
      modifies this
      ensures Now() == Step(old(Now()), Detach(t))
      ensures tasks == old(tasks)[t := Task(true, None)]
      ensures var f := old(tasks)[t].handle.value; frames == old(frames)[f := old(frames)[f].(detached := true)]
    {
      var f := tasks[t].handle.value;
      tasks := tasks[t := tasks[t].(handle := None)];
      SetDetached(f);
    }
  }
}
