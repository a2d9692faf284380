/**
 Coroutine tasks: who goes on when a frame finishes, and what it reads.

 Each unfinished frame is to be resumed by one party at a time: by the owner of its task before it starts, by whom it
 suspended for, or by the callee it awaits. A task can be resumed or awaited out of turn all the same. In runs
 without that, links and reads are as intended; with it, some frame can be resumed twice.
 */
module TaskCalls {
  import opened Prelude
  import opened TaskFrames

  /** The task is resumed or awaited while its frame has started and not ended. */
  predicate ResumesEarly(s: State, e: Event)
    requires Enabled(s, e)
  {
    (e.Start? || e.Await?) && s.tasks[e.task].handle.Some? && FrameOf(s, e.task).status !in {Created, Done}
  }

  /** No task of the run is resumed or awaited out of turn. */
  ghost predicate ResumesInTime(s: State, events: seq<Event>)
    decreases |events|
  {
    events == [] ||
    (if Enabled(s, events[0]) then !ResumesEarly(s, events[0]) && ResumesInTime(Step(s, events[0]), events[1..])
     else ResumesInTime(s, events[1..]))
  }

  // ---- The invariant ----

  /**
   Caller links lead to the one frame that waits, and an unfinished callee was awaited later than its caller. A frame
   awaits a callee that leads back to it, and one wake-up is owed to it exactly while it is suspended.
   */
  ghost predicate Waits(s: State, f: nat)
    requires f < |s.frames|
  {
    var frame := s.frames[f];
    && (frame.caller.Some? ==>
          && frame.caller.value < |s.frames| && frame.caller.value != f
          && !s.frames[frame.caller.value].status.Created? && frame.since < s.clock
          && (!frame.status.Done? ==>
                s.frames[frame.caller.value].status == Awaiting(f) && s.frames[frame.caller.value].since < frame.since))
    && (frame.caller.None? ==> frame.since == 0)
    && (frame.status.Awaiting? ==>
          && frame.status.callee < |s.frames|
          && Awaited(s.frames[frame.status.callee]) && s.frames[frame.status.callee].caller == Some(f))
    && (Awaited(frame) ==> (frame.detached <==> f in s.orphaned))
    && frame.owed == if frame.status.Suspended? then 1 else 0
  }

  ghost predicate Waiting(s: State) {
    s.clock > 0 && forall f :: 0 <= f < |s.frames| ==> Waits(s, f)
  }

  /** A log without repetitions of exactly the awaited frames that are done. */
  ghost predicate Logged(s: State) {
    && (forall i :: 0 <= i < |s.resumed| ==>
          s.resumed[i] < |s.frames| && s.frames[s.resumed[i]].caller.Some? && s.frames[s.resumed[i]].status.Done?)
    && (forall i, j :: 0 <= i < j < |s.resumed| ==> s.resumed[i] != s.resumed[j])
    && (forall f :: 0 <= f < |s.frames| && s.frames[f].caller.Some? && s.frames[f].status.Done? ==> f in s.resumed)
  }

  ghost predicate HasRead(s: State, f: nat) {
    exists i :: 0 <= i < |s.results| && s.results[i].callee == Some(f)
  }

  /** A read of a frame is of its value, and of a live frame unless that was given up; a read of no frame is bad. */
  ghost predicate GoodRead(s: State, r: Read) {
    if r.callee.None? then !r.live
    else
      && r.callee.value < |s.frames| && s.frames[r.callee.value].status.Done?
      && r.value.Some? && r.value == s.frames[r.callee.value].value
      && (r.live <==> r.callee.value !in s.orphaned)
  }

  ghost predicate Reads(s: State) {
    && (forall i :: 0 <= i < |s.results| ==> GoodRead(s, s.results[i]))
    && (forall f :: f in s.resumed ==> HasRead(s, f))
  }

  ghost predicate Inv(s: State) {
    Ownership(s) && Waiting(s) && Logged(s) && Reads(s)
  }

  // ---- Every operation in time keeps it ----

  /** Steps that end no frame, read none and leave what has ended alone. */
  ghost predicate EndsNone(s: State, n: State) {
    && |s.frames| <= |n.frames| && n.resumed == s.resumed && n.results == s.results
    && (forall f :: 0 <= f < |s.frames| && s.frames[f].status.Done? ==>
          && n.frames[f].caller == s.frames[f].caller && n.frames[f].value == s.frames[f].value
          && n.frames[f].status.Done? && (f in n.orphaned <==> f in s.orphaned))
    && (forall f :: 0 <= f < |n.frames| && n.frames[f].status.Done? ==> f < |s.frames| && s.frames[f].status.Done?)
  }

  lemma EndsNoneKeepsLogs(s: State, n: State)
    requires Logged(s) && Reads(s) && EndsNone(s, n)
    ensures Logged(n) && Reads(n)
  {
    forall i | 0 <= i < |n.results| ensures GoodRead(n, n.results[i]) {
      assert GoodRead(s, s.results[i]);
    }
    forall f | f in n.resumed ensures HasRead(n, f) {
      assert HasRead(s, f);
      var i :| 0 <= i < |s.results| && s.results[i].callee == Some(f);
      assert n.results[i].callee == Some(f);
    }
  }

  lemma CreateWaits(s: State)
    requires Inv(s)
    ensures Waiting(Step(s, Create)) && EndsNone(s, Step(s, Create))
  {
    var n := Step(s, Create);
    forall f | 0 <= f < |n.frames| ensures Waits(n, f) {
      if f < |s.frames| { assert Waits(s, f); }
    }
  }

  lemma MoveWaits(s: State, t: nat)
    requires Inv(s) && Enabled(s, Move(t))
    ensures Waiting(Step(s, Move(t))) && EndsNone(s, Step(s, Move(t)))
  {
    var n := Step(s, Move(t));
    forall f | 0 <= f < |n.frames| ensures Waits(n, f) {
      assert Waits(s, f);
    }
  }

  /** A frame that no callee is to resume starts, pauses, goes on, or sets its value. */
  lemma TurnWaits(s: State, f: nat, frame: Frame)
    requires Waiting(s) && f < |s.frames| && s.frames[f].status in {Created, Running, Suspended}
    requires frame.status in {Running, Suspended, Returning}
    requires frame == s.frames[f].(status := frame.status, value := frame.value, owed := frame.owed)
    requires frame.owed == if frame.status.Suspended? then 1 else 0
    ensures Waiting(With(s, f, frame)) && EndsNone(s, With(s, f, frame))
  {
    var n := With(s, f, frame);
    forall g | 0 <= g < |n.frames| ensures Waits(n, g) {
      assert Waits(s, g);
    }
  }

  /** A fresh callee with its caller. */
  function Linking(s: State, c: nat, g: nat): State
    requires c < |s.frames| && g < |s.frames|
  {
    s.(frames := s.frames[c := s.frames[c].(status := Awaiting(g))]
                         [g := s.frames[g].(caller := Some(c), since := s.clock, status := Running)],
       clock := s.clock + 1)
  }

  lemma LinkingWaits(s: State, c: nat, g: nat)
    requires Waiting(s) && Is(s, c, Running) && Is(s, g, Created)
    requires s.frames[g].caller.None? && !s.frames[g].detached && g !in s.orphaned
    ensures Waiting(Linking(s, c, g)) && EndsNone(s, Linking(s, c, g))
  {
    var n := Linking(s, c, g);
    assert Waits(s, g) && Waits(s, c);
    forall f | 0 <= f < |n.frames| ensures Waits(n, f) {
      assert Waits(s, f);
    }
  }

  lemma LinkWaits(s: State, c: nat, t: nat)
    requires Inv(s) && Enabled(s, Await(c, t)) && s.tasks[t].handle.Some? && FrameOf(s, t).status.Created?
    ensures Waiting(Step(s, Await(c, t))) && EndsNone(s, Step(s, Await(c, t)))
  {
    var g := s.tasks[t].handle.value;
    assert Owns(s, t) && Kept(s, g);
    assert Step(s, Await(c, t)) == Linking(s, c, g);
    hide Inv, Step, Linking;
    LinkingWaits(s, c, g);
  }

  lemma AbandonWaits(s: State, t: nat, gone: Task)
    requires Inv(s) && Has(s, t) && s.tasks[t].handle.Some?
    ensures var n := Abandoned(s.(tasks := s.tasks[t := gone]), s.tasks[t].handle.value); Waiting(n) && EndsNone(s, n)
  {
    var g := s.tasks[t].handle.value;
    var n := Abandoned(s.(tasks := s.tasks[t := gone]), g);
    assert forall f :: f in n.orphaned <==> f in s.orphaned || (f == g && Awaited(s.frames[g]));
    forall f | 0 <= f < |n.frames| ensures Waits(n, f) {
      assert Waits(s, f);
    }
  }

  lemma DropWaits(s: State, t: nat)
    requires Inv(s) && Enabled(s, Drop(t))
    ensures Waiting(Step(s, Drop(t))) && EndsNone(s, Step(s, Drop(t)))
  {
    if s.tasks[t].handle.Some? && !FrameOf(s, t).status.Done? {
      AbandonWaits(s, t, Task(false, None));
    } else {
      DestroyWaits(s, t);
    }
  }

  lemma DestroyWaits(s: State, t: nat)
    requires Waiting(s) && Enabled(s, Drop(t)) && (s.tasks[t].handle.Some? ==> FrameOf(s, t).status.Done?)
    ensures Waiting(Step(s, Drop(t))) && EndsNone(s, Step(s, Drop(t)))
  {
    var n := Step(s, Drop(t));
    forall f | 0 <= f < |n.frames| ensures Waits(n, f) {
      assert Waits(s, f);
    }
  }

  /** A read of a task that has ended, or of none. */
  lemma ReadKeeps(s: State, c: nat, t: nat)
    requires Inv(s) && Enabled(s, Await(c, t)) && (s.tasks[t].handle.Some? ==> FrameOf(s, t).status.Done?)
    ensures var n := Step(s, Await(c, t)); Waiting(n) && Logged(n) && Reads(n)
  {
    var n := Step(s, Await(c, t));
    assert Owns(s, t);
    assert s.tasks[t].handle.Some? ==> Kept(s, s.tasks[t].handle.value);
    hide Ownership, Kept, Owns;
    assert forall f :: 0 <= f < |n.frames| ==> Waits(s, f) ==> Waits(n, f);
    assert GoodRead(n, n.results[|s.results|]);
    ReadsMore(s, n);
  }

  /** One more read, and perhaps one more frame that has ended: what was read before stays good. */
  lemma ReadsMore(s: State, n: State)
    requires Reads(s) && s.results <= n.results && |s.frames| <= |n.frames| && |n.results| == |s.results| + 1
    requires GoodRead(n, n.results[|s.results|])
    requires n.resumed == s.resumed ||
             exists f :: n.resumed == s.resumed + [f] && n.results[|s.results|].callee == Some(f)
    requires n.orphaned == s.orphaned
    requires forall f :: 0 <= f < |s.frames| && s.frames[f].status.Done? ==>
               n.frames[f].value == s.frames[f].value && n.frames[f].status.Done?
    ensures Reads(n)
  {
    forall i | 0 <= i < |n.results| ensures GoodRead(n, n.results[i]) {
      if i < |s.results| {
        assert GoodRead(s, s.results[i]) && n.results[i] == s.results[i];
      }
    }
    forall f | f in n.resumed ensures HasRead(n, f) {
      if f in s.resumed {
        assert HasRead(s, f);
        var i :| 0 <= i < |s.results| && s.results[i].callee == Some(f);
        assert n.results[i].callee == Some(f);
      }
    }
  }

  /** The caller of a frame at its end awaits this frame, and so it reads it. */
  lemma FinishKeeps(s: State, g: nat)
    requires Inv(s) && Enabled(s, Finish(g))
    ensures var n := Step(s, Finish(g)); Waiting(n) && Logged(n) && Reads(n) && n.doubled == s.doubled
  {
    var n := Step(s, Finish(g));
    assert Kept(s, g) && Waits(s, g);
    assert s.frames[g].caller.Some? ==> Is(s, s.frames[g].caller.value, Awaiting(g));
    FinishWaits(s, g);
    FinishLogs(s, g);
    if s.frames[g].caller.Some? {
      hide Waiting, Ownership, Logged;
      assert n.results == s.results + [ReadOf(n, g)] && n.resumed == s.resumed + [g];
      ReadsMore(s, n);
    } else {
      hide Waiting, Ownership;
      FinishAlone(s, g);
    }
  }

  lemma FinishAlone(s: State, g: nat)
    requires Reads(s) && Enabled(s, Finish(g)) && s.frames[g].caller.None?
    ensures Reads(Step(s, Finish(g)))
  {
    var n := Step(s, Finish(g));
    assert forall i :: 0 <= i < |s.results| && GoodRead(s, s.results[i]) ==> GoodRead(n, s.results[i]);
    assert forall f :: f in n.resumed && HasRead(s, f) ==> HasRead(n, f);
  }

  lemma FinishWaits(s: State, g: nat)
    requires Waiting(s) && Enabled(s, Finish(g))
    ensures Waiting(Step(s, Finish(g)))
  {
    var n := Step(s, Finish(g));
    assert Waits(s, g);
    forall f | 0 <= f < |n.frames| ensures Waits(n, f) {
      assert Waits(s, f);
    }
  }

  lemma FinishLogs(s: State, g: nat)
    requires Waiting(s) && Logged(s) && Enabled(s, Finish(g))
    ensures Logged(Step(s, Finish(g)))
  {
    assert Waits(s, g);
    hide Waiting, Waits;
    var n := Step(s, Finish(g));
    assert g !in s.resumed;
    assert forall f :: f in s.resumed ==> f in n.resumed;
    assert s.frames[g].caller.Some? ==> n.resumed[|s.resumed|] == g;
  }

  lemma TurnKeeps(s: State, f: nat, frame: Frame)
    requires Inv(s) && f < |s.frames| && s.frames[f].status in {Created, Running, Suspended}
    requires frame.status in {Running, Suspended, Returning}
    requires frame == s.frames[f].(status := frame.status, value := frame.value, owed := frame.owed)
    requires frame.owed == if frame.status.Suspended? then 1 else 0
    ensures var n := With(s, f, frame); Waiting(n) && Logged(n) && Reads(n)
  {
    TurnWaits(s, f, frame);
    hide Waiting, Logged, Reads, EndsNone;
    EndsNoneKeepsLogs(s, With(s, f, frame));
  }

  lemma StartKeeps(s: State, t: nat)
    requires Inv(s) && Enabled(s, Start(t)) && s.tasks[t].handle.Some? && FrameOf(s, t).status.Created?
    ensures var n := Step(s, Start(t)); Waiting(n) && Logged(n) && Reads(n) && n.doubled == s.doubled
  {
    assert Waits(s, s.tasks[t].handle.value);
    hide Inv;
    TurnKeeps(s, s.tasks[t].handle.value, FrameOf(s, t).(status := Running));
  }

  /** A wake-up that is owed finds its frame suspended. */
  lemma PauseKeeps(s: State, e: Event)
    requires Inv(s) && Enabled(s, e) && (e.Suspend? || e.Wake? || e.Return?)
    ensures var n := Step(s, e); Waiting(n) && Logged(n) && Reads(n) && n.doubled == s.doubled
  {
    assert Waits(s, e.frame);
    assert Step(s, e) == With(s, e.frame, Step(s, e).frames[e.frame]);
    hide Inv;
    TurnKeeps(s, e.frame, Step(s, e).frames[e.frame]);
  }

  lemma StepKeeps(s: State, e: Event)
    requires Inv(s) && Enabled(s, e) && !ResumesEarly(s, e)
    ensures Inv(Step(s, e)) && Step(s, e).doubled == s.doubled
  {
    StepKeepsOwnership(s, e);
    hide Ownership, Waiting, Logged, Reads, EndsNone;
    match e
    case Create =>
      CreateWaits(s);
      EndsNoneKeepsLogs(s, Step(s, e));
    case Move(t) =>
      MoveWaits(s, t);
      EndsNoneKeepsLogs(s, Step(s, e));
    case Start(t) =>
      if Step(s, e) != s {
        StartKeeps(s, t);
      }
    case Await(c, t) =>
      if s.tasks[t].handle.Some? && FrameOf(s, t).status.Created? {
        LinkWaits(s, c, t);
        EndsNoneKeepsLogs(s, Step(s, e));
      } else {
        ReadKeeps(s, c, t);
      }
    case Finish(f) => FinishKeeps(s, f);
    case Drop(t) =>
      DropWaits(s, t);
      EndsNoneKeepsLogs(s, Step(s, e));
    case Detach(t) =>
      AbandonWaits(s, t, Task(true, None));
      EndsNoneKeepsLogs(s, Step(s, e));
    case _ => PauseKeeps(s, e);
  }

  lemma {:induction false} RunKeeps(s: State, events: seq<Event>)
    requires Inv(s) && ResumesInTime(s, events)
    ensures Inv(Run(s, events)) && Run(s, events).doubled == s.doubled
    decreases |events|
  {
    hide Inv, Step, Enabled, ResumesEarly;
    if events != [] {
      if Enabled(s, events[0]) {
        StepKeeps(s, events[0]);
      }
      RunKeeps(if Enabled(s, events[0]) then Step(s, events[0]) else s, events[1..]);
    }
  }

  lemma EmptyKeeps()
    ensures Inv(EMPTY)
  {
  }

  // ---- Continuations ----

  function Occurrences(log: seq<nat>, f: nat): nat {
    if log == [] then 0 else (if log[0] == f then 1 else 0) + Occurrences(log[1..], f)
  }

  lemma {:induction false} OccursOnce(log: seq<nat>, f: nat)
    requires forall i, j :: 0 <= i < j < |log| ==> log[i] != log[j]
    ensures Occurrences(log, f) == if f in log then 1 else 0
    decreases |log|
  {
    if log != [] {
      OccursOnce(log[1..], f);
      assert f in log <==> f == log[0] || f in log[1..];
    }
  }

  /**
   An awaited frame has resumed its caller once if it is done, and not at all before; until then the caller
   waits for this very frame, and no two unfinished frames share a waiting caller.
   */
  lemma ResumedOnce(events: seq<Event>, f: nat, g: nat)
    requires ResumesInTime(EMPTY, events)
    requires f < |Run(EMPTY, events).frames| && g < |Run(EMPTY, events).frames|
    ensures var s := Run(EMPTY, events);
      var frame := s.frames[f];
      && Occurrences(s.resumed, f) == (if frame.caller.Some? && frame.status.Done? then 1 else 0)
      && (Awaited(frame) ==> Is(s, frame.caller.value, Awaiting(f)))
      && (Awaited(frame) && Awaited(s.frames[g]) && frame.caller == s.frames[g].caller ==> f == g)
  {
    EmptyKeeps();
    RunKeeps(EMPTY, events);
    hide Run;
    var s := Run(EMPTY, events);
    assert Waits(s, f) && Waits(s, g);
    OccursOnce(s.resumed, f);
  }

  /** No frame is ever resumed that runs or has ended, and a wake-up that is owed finds its frame suspended. */
  lemma WakesFindSuspended(events: seq<Event>, f: nat)
    requires ResumesInTime(EMPTY, events)
    ensures var s := Run(EMPTY, events); s.doubled == [] && (Enabled(s, Wake(f)) ==> Is(s, f, Suspended))
  {
    EmptyKeeps();
    RunKeeps(EMPTY, events);
    hide Run;
    var s := Run(EMPTY, events);
    assert f < |s.frames| ==> Waits(s, f);
  }

  /**
   From await to return, whoever else waits for it: the caller is running again, with the value its callee returned.
   */
  lemma CallDelivers(s: State, c: nat, t: nat, v: int)
    requires Ownership(s) && Enabled(s, Await(c, t)) && s.tasks[t].handle.Some?
    requires FrameOf(s, t).status in {Created, Suspended}
    ensures var f := s.tasks[t].handle.value;
      var called := Step(s, Await(c, t));
      && Enabled(called, Return(f, v)) && Enabled(Step(called, Return(f, v)), Finish(f))
      && var back := Step(Step(called, Return(f, v)), Finish(f));
         && Is(back, c, Running) && back.frames[f].status.Done?
         && back.results == s.results + [Read(Some(f), true, Some(v))]
  {
    assert Owns(s, t);
    assert Kept(s, s.tasks[t].handle.value);
  }

  // ---- What is read ----

  predicate Good(r: Read) {
    r.live && r.value.Some?
  }

  /** A frame that was awaited reads good exactly when its task was not given up while the caller waited. */
  lemma ReadsExactly(events: seq<Event>, r: Read)
    requires ResumesInTime(EMPTY, events) && r in Run(EMPTY, events).results
    ensures r.callee.Some? ==> r.value.Some?
    ensures Good(r) <==> r.callee.Some? && r.callee.value !in Run(EMPTY, events).orphaned
  {
    EmptyKeeps();
    RunKeeps(EMPTY, events);
    hide Run;
    var s := Run(EMPTY, events);
    var i :| 0 <= i < |s.results| && s.results[i] == r;
    assert GoodRead(s, s.results[i]);
  }

  /** A task is given up while its frame has a waiting caller, or a task without a frame is awaited. */
  predicate LosesRead(s: State, e: Event)
    requires Enabled(s, e)
  {
    || ((e.Drop? || e.Detach?) && s.tasks[e.task].handle.Some? && Awaited(FrameOf(s, e.task)))
    || (e.Await? && s.tasks[e.task].handle.None?)
  }

  /** No step of the run does. */
  ghost predicate KeepsAwaited(s: State, events: seq<Event>)
    decreases |events|
  {
    events == [] ||
    (if Enabled(s, events[0]) then !LosesRead(s, events[0]) && KeepsAwaited(Step(s, events[0]), events[1..])
     else KeepsAwaited(s, events[1..]))
  }

  /** From the `k`-th read on, each was of a frame. */
  ghost predicate OfFrames(results: seq<Read>, k: nat) {
    forall i :: k <= i < |results| ==> results[i].callee.Some?
  }

  lemma StepOrphans(s: State, e: Event)
    requires Enabled(s, e)
    ensures var n := Step(s, e);
      && s.orphaned <= n.orphaned && s.results <= n.results
      && (!LosesRead(s, e) <==> n.orphaned == s.orphaned && OfFrames(n.results, |s.results|))
  {
    var n := Step(s, e);
    if LosesRead(s, e) && e.Await? {
      assert n.results[|s.results|].callee.None?;
    }
  }

  lemma {:induction false} RunOrphans(s: State, events: seq<Event>)
    ensures var n := Run(s, events);
      && s.orphaned <= n.orphaned && s.results <= n.results
      && (KeepsAwaited(s, events) <==> n.orphaned == s.orphaned && OfFrames(n.results, |s.results|))
    decreases |events|
  {
    if events != [] {
      var next := if Enabled(s, events[0]) then Step(s, events[0]) else s;
      if Enabled(s, events[0]) {
        StepOrphans(s, events[0]);
      }
      hide Step, Enabled, LosesRead;
      RunOrphans(next, events[1..]);
    }
  }
}
