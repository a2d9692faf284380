/**
 Coroutine tasks out of turn: exactly when a frame can be resumed twice, a read go wrong, a caller link close a cycle.

 A frame that has started and not ended is resumed or awaited a second time without a test. Whether that does harm
 shows only later, so the theorems speak of what a run can go on to do.
 */
module TaskMisuse {
  import opened Prelude
  import opened TaskFrames
  import opened TaskCalls

  // ---- Bringing an awaited frame to its end ----

  /** Wake-ups that are owed, returns and ends: what can follow without anybody touching a task. */
  predicate Quiet(events: seq<Event>) {
    forall i :: 0 <= i < |events| ==> events[i].Wake? || events[i].Return? || events[i].Finish?
  }

  lemma {:induction false} QuietRuns(s: State, events: seq<Event>)
    requires Quiet(events)
    ensures ResumesInTime(s, events) && KeepsAwaited(s, events)
    decreases |events|
  {
    if events != [] {
      var next := if Enabled(s, events[0]) then Step(s, events[0]) else s;
      hide Step;
      QuietRuns(next, events[1..]);
    }
  }

  lemma {:induction false} RunAppend(s: State, a: seq<Event>, b: seq<Event>)
    ensures Run(s, a + b) == Run(Run(s, a), b)
    decreases |a|
  {
    hide Step, Enabled;
    if a == [] {
      assert a + b == b;
    } else {
      assert (a + b)[0] == a[0] && (a + b)[1..] == a[1..] + b;
      RunAppend(if Enabled(s, a[0]) then Step(s, a[0]) else s, a[1..], b);
    }
  }

  /** The frame is under way, or awaits one that is and that leads back to it. */
  ghost predicate Chained(s: State, f: nat)
    decreases s.clock - if f < |s.frames| then s.frames[f].since else 0
  {
    && f < |s.frames| && s.frames[f].since < s.clock && s.frames[f].status !in {Created, Done}
    && (s.frames[f].caller.Some? ==> s.frames[f].caller.value < |s.frames|)
    && (s.frames[f].status.Suspended? ==> s.frames[f].owed > 0)
    && (s.frames[f].status.Awaiting? ==>
          var h := s.frames[f].status.callee;
          && h < |s.frames| && s.frames[h].caller == Some(f) && s.frames[f].since < s.frames[h].since < s.clock
          && Chained(s, h))
  }

  /** Of the other frames only callees further down the chain have changed: they have ended. */
  ghost predicate OthersStand(s: State, n: State, f: nat)
    requires f < |s.frames|
  {
    |n.frames| == |s.frames| &&
    forall x :: 0 <= x < |s.frames| && x != f ==>
      n.frames[x] == s.frames[x] || (n.frames[x].status.Done? && s.frames[x].since > s.frames[f].since)
  }

  ghost predicate Readied(s: State, n: State, f: nat)
    requires f < |s.frames|
  {
    && OthersStand(s, n, f) && n.frames[f].status.Returning? && n.frames[f].caller == s.frames[f].caller
    && n.frames[f].since == s.frames[f].since
  }

  lemma RunOne(s: State, e: Event)
    requires Enabled(s, e)
    ensures Run(s, [e]) == Step(s, e)
  {
    RunCons(s, e, []);
    assert [e] + [] == [e];
  }

  /** From wherever it is suspended, if its callee is, a frame gets to its end. */
  lemma {:induction false} GetsReady(s: State, f: nat) returns (es: seq<Event>)
    requires Chained(s, f)
    ensures Quiet(es) && Readied(s, Run(s, es), f)
    decreases s.clock - s.frames[f].since
  {
    var frame := s.frames[f];
    if frame.status.Returning? {
      es := [];
    } else if frame.status.Running? {
      es := [Return(f, 0)];
      RunOne(s, Return(f, 0));
    } else if frame.status.Suspended? {
      es := [Wake(f)] + [Return(f, 0)];
      RunCons(s, Wake(f), [Return(f, 0)]);
      RunOne(Step(s, Wake(f)), Return(f, 0));
    } else {
      var h := frame.status.callee;
      var before := GetsReady(s, h);
      var s1 := Run(s, before);
      es := before + ([Finish(h)] + [Return(f, 0)]);
      RunAppend(s, before, [Finish(h)] + [Return(f, 0)]);
      EndsAndGoesOn(s, s1, f, h);
    }
  }

  lemma EndsAndGoesOn(s: State, s1: State, f: nat, h: nat)
    requires f < |s.frames| && s.frames[f].status == Awaiting(h) && h < |s.frames| && s.frames[h].caller == Some(f)
    requires s.frames[f].since < s.frames[h].since && Readied(s, s1, h)
    ensures Readied(s, Run(s1, [Finish(h)] + [Return(f, 0)]), f)
  {
    assert s1.frames[f] == s.frames[f];
    RunCons(s1, Finish(h), [Return(f, 0)]);
    var s2 := Step(s1, Finish(h));
    assert s2.frames[f].status.Running?;
    RunOne(s2, Return(f, 0));
  }

  lemma {:induction false} UnderWay(s: State, f: nat)
    requires Inv(s) && f < |s.frames| && s.frames[f].status !in {Created, Done}
    ensures Chained(s, f)
    decreases s.clock - s.frames[f].since
  {
    assert Waits(s, f) && Kept(s, f);
    hide Ownership, Logged, Reads;
    if s.frames[f].status.Awaiting? {
      var h := s.frames[f].status.callee;
      assert Waits(s, h) && Kept(s, h);
      UnderWay(s, h);
    }
  }

  // ---- When a read can go wrong ----

  ghost predicate AllGood(results: seq<Read>) {
    forall i :: 0 <= i < |results| ==> Good(results[i])
  }

  /** The run can go on, everybody keeping to the rules from now on, to a read that is not good. */
  ghost predicate CanMisread(s: State) {
    exists more :: ResumesInTime(s, more) && KeepsAwaited(s, more) && !AllGood(Run(s, more).results)
  }

  lemma AwaitedReads(s: State, f: nat)
    requires Inv(s) && f in s.orphaned && f < |s.frames| && s.frames[f].status.Done? && s.frames[f].caller.Some?
    ensures !AllGood(s.results)
  {
    assert f in s.resumed && HasRead(s, f);
    var i :| 0 <= i < |s.results| && s.results[i].callee == Some(f);
    assert GoodRead(s, s.results[i]);
  }

  lemma OrphanMisread(s: State, f: nat)
    requires Inv(s) && f in s.orphaned
    ensures CanMisread(s)
  {
    assert f < |s.frames| && Kept(s, f) && Waits(s, f);
    var more := [];
    if !s.frames[f].status.Done? {
      UnderWay(s, f);
      var es := GetsReady(s, f);
      more := es + [Finish(f)];
      RunAppend(s, es, [Finish(f)]);
      RunOne(Run(s, es), Finish(f));
    }
    QuietRuns(s, more);
    RunKeeps(s, more);
    RunOrphans(s, more);
    AwaitedReads(Run(s, more), f);
  }

  lemma CleanReads(s: State)
    requires Inv(s) && s.orphaned == [] && OfFrames(s.results, 0)
    ensures AllGood(s.results)
  {
    forall i | 0 <= i < |s.results| ensures Good(s.results[i]) {
      assert GoodRead(s, s.results[i]);
    }
  }

  /**
   Where no task is resumed out of turn, reads stay good, however the run goes on, exactly when no task of it was given
   up while a caller waited for it, and none without a frame was awaited.
   */
  lemma KeptTasksReadLive(events: seq<Event>)
    requires ResumesInTime(EMPTY, events)
    ensures KeepsAwaited(EMPTY, events) <==> !CanMisread(Run(EMPTY, events))
  {
    EmptyKeeps();
    RunKeeps(EMPTY, events);
    RunOrphans(EMPTY, events);
    var s := Run(EMPTY, events);
    hide Run, Inv, Good, KeepsAwaited, ResumesInTime;
    if KeepsAwaited(EMPTY, events) {
      forall more | ResumesInTime(s, more) && KeepsAwaited(s, more) ensures AllGood(Run(s, more).results) {
        RunKeeps(s, more);
        RunOrphans(s, more);
        CleanReads(Run(s, more));
      }
    } else if s.orphaned != [] {
      OrphanMisread(s, s.orphaned[0]);
    } else {
      var i :| 0 <= i < |s.results| && s.results[i].callee.None?;
      NullMisread(s, i);
    }
  }

  lemma NullMisread(s: State, i: nat)
    requires Inv(s) && i < |s.results| && s.results[i].callee.None?
    ensures CanMisread(s)
  {
    assert GoodRead(s, s.results[i]) && !Good(s.results[i]);
    assert Run(s, []) == s && ResumesInTime(s, []) && KeepsAwaited(s, []);
  }

  // ---- When a frame can be resumed twice ----

  /** The run can go on, nobody resuming out of turn from now on, to a resume of a frame that runs or has ended. */
  ghost predicate CanResumeTwice(s: State) {
    exists more :: ResumesInTime(s, more) && Run(s, more).doubled != []
  }

  lemma TwiceBy(s: State, more: seq<Event>)
    requires Quiet(more) && Run(s, more).doubled != []
    ensures CanResumeTwice(s)
  {
    QuietRuns(s, more);
  }

  lemma TwiceNow(s: State)
    requires s.doubled != []
    ensures CanResumeTwice(s)
  {
    TwiceBy(s, []);
  }

  /** The wake-up that is still owed finds the frame running. */
  lemma WokenTwice(s: State, f: nat)
    requires f < |s.frames| && s.frames[f].status.Running? && s.frames[f].owed > 0
    ensures CanResumeTwice(s)
  {
    RunOne(s, Wake(f));
    TwiceBy(s, [Wake(f)]);
  }

  /** The callee, at its end, finds its caller running or ended. */
  lemma CalledBackTwice(s: State, f: nat, h: nat)
    requires Chained(s, h) && h != f && s.frames[h].caller == Some(f) && f < |s.frames| && s.frames[f].status.Running?
    ensures CanResumeTwice(s)
  {
    var es := GetsReady(s, h);
    var s1 := Run(s, es);
    assert s1.frames[f] == s.frames[f] || s1.frames[f].status.Done?;
    RunAppend(s, es, [Finish(h)]);
    RunOne(s1, Finish(h));
    TwiceBy(s, es + [Finish(h)]);
  }

  /** A frame that awaits itself is its own caller, and at its end resumes what has ended. */
  lemma SelfTwice(s: State, f: nat)
    requires f < |s.frames| && s.frames[f].status.Running? && s.frames[f].caller == Some(f)
    ensures CanResumeTwice(s)
  {
    var s1 := Step(s, Return(f, 0));
    RunCons(s, Return(f, 0), [Finish(f)]);
    RunOne(s1, Finish(f));
    TwiceBy(s, [Return(f, 0)] + [Finish(f)]);
  }

  /** Resuming a frame out of turn breaks no chain below it, though the frame that awaits it may be on one. */
  lemma {:induction false} ChainStays(s: State, e: Event, x: nat)
    requires Enabled(s, e) && ResumesEarly(s, e) && FrameOf(s, e.task).status.Awaiting?
    requires Chained(s, x) && FrameOf(s, e.task).since < s.frames[x].since
    ensures Chained(Step(s, e), x)
    decreases s.clock - s.frames[x].since
  {
    var n := Step(s, e);
    if e.Await? && x == e.caller {
      assert Chained(n, s.tasks[e.task].handle.value);
    } else if s.frames[x].status.Awaiting? {
      ChainStays(s, e, s.frames[x].status.callee);
    }
  }

  lemma EarlyTwice(s: State, e: Event)
    requires Inv(s) && Enabled(s, e) && ResumesEarly(s, e)
    ensures CanResumeTwice(Step(s, e))
  {
    var f := s.tasks[e.task].handle.value;
    var frame, n := s.frames[f], Step(s, e);
    assert Waits(s, f);
    if frame.status.Awaiting? {
      var h := frame.status.callee;
      assert Waits(s, h) && Kept(s, h);
      UnderWay(s, h);
      ChainStays(s, e, h);
      hide Chained, Inv;
      CalledBackTwice(n, f, h);
    } else if frame.status.Suspended? {
      WokenTwice(n, f);
    } else if e.Await? && e.caller == f {
      SelfTwice(n, f);
    } else {
      TwiceNow(n);
    }
  }

  /**
   A run that has kept in turn can be made to resume a frame twice by a step exactly when that step resumes or awaits
   a task that has started and not ended: suspended, awaiting a callee of its own, or running.
   */
  lemma DoubleResumeExactly(s: State, e: Event)
    requires Inv(s) && s.doubled == [] && Enabled(s, e)
    ensures CanResumeTwice(Step(s, e)) <==> ResumesEarly(s, e)
  {
    if ResumesEarly(s, e) {
      EarlyTwice(s, e);
    } else {
      StepKeeps(s, e);
      var n := Step(s, e);
      forall more | ResumesInTime(n, more) ensures Run(n, more).doubled == [] {
        RunKeeps(n, more);
      }
    }
  }

  /** Some beginning of the run can go on to a double resume. */
  ghost predicate Risks(s: State, events: seq<Event>) {
    exists k :: 0 <= k <= |events| && CanResumeTwice(Run(s, events[..k]))
  }

  lemma NothingRisked(s: State)
    requires Inv(s) && s.doubled == []
    ensures !CanResumeTwice(s)
  {
    forall more | ResumesInTime(s, more) ensures Run(s, more).doubled == [] {
      RunKeeps(s, more);
    }
  }

  lemma RunsNext(s: State, events: seq<Event>, k: nat)
    requires 0 < k <= |events|
    ensures Run(s, events[..k])
         == Run(if Enabled(s, events[0]) then Step(s, events[0]) else s, events[1..][..k - 1])
  {
    assert events[..k][0] == events[0] && events[..k][1..] == events[1..][..k - 1];
  }

  lemma RisksNext(s: State, events: seq<Event>)
    requires events != [] && !CanResumeTwice(s)
    ensures Risks(s, events) <==> Risks(if Enabled(s, events[0]) then Step(s, events[0]) else s, events[1..])
  {
    var next := if Enabled(s, events[0]) then Step(s, events[0]) else s;
    assert events[..0] == [] && Run(s, []) == s;
    hide Run, Step, Enabled, CanResumeTwice;
    if Risks(s, events) {
      var k :| 0 <= k <= |events| && CanResumeTwice(Run(s, events[..k]));
      RunsNext(s, events, k);
      assert CanResumeTwice(Run(next, events[1..][..k - 1]));
    }
    if Risks(next, events[1..]) {
      var k :| 0 <= k <= |events[1..]| && CanResumeTwice(Run(next, events[1..][..k]));
      RunsNext(s, events, k + 1);
      assert CanResumeTwice(Run(s, events[..k + 1]));
    }
  }

  lemma {:induction false} RisksExactly(s: State, events: seq<Event>)
    requires Inv(s) && s.doubled == []
    ensures Risks(s, events) <==> !ResumesInTime(s, events)
    decreases |events|
  {
    if events == [] {
      assert events[..0] == [];
      NothingRisked(s);
    } else {
      var next := if Enabled(s, events[0]) then Step(s, events[0]) else s;
      NothingRisked(s);
      RisksNext(s, events);
      hide Inv, CanResumeTwice, Run;
      if Enabled(s, events[0]) {
        DoubleResumeExactly(s, events[0]);
        if !ResumesEarly(s, events[0]) {
          StepKeeps(s, events[0]);
          RisksExactly(next, events[1..]);
        } else {
          assert events[1..][..0] == [];
          assert CanResumeTwice(Run(next, events[1..][..0]));
        }
      } else {
        RisksExactly(next, events[1..]);
      }
    }
  }

  /** So some beginning of a run can go on to a double resume exactly when some task of it is resumed out of turn. */
  lemma RunResumesTwiceExactly(events: seq<Event>)
    ensures Risks(EMPTY, events) <==> !ResumesInTime(EMPTY, events)
  {
    EmptyKeeps();
    RisksExactly(EMPTY, events);
  }

  // ---- When caller links close a cycle ----

  function CallerOf(s: State, f: nat): Option<nat> {
    if f < |s.frames| then s.frames[f].caller else None
  }

  /** The `k`-th caller up from a frame. */
  function Nth(s: State, f: nat, k: nat): Option<nat>
    decreases k
  {
    if k == 0 then Some(f)
    else if CallerOf(s, f).Some? then Nth(s, CallerOf(s, f).value, k - 1)
    else None
  }

  ghost predicate Acyclic(s: State) {
    forall f: nat, k: nat :: k > 0 ==> Nth(s, f, k) != Some(f)
  }

  ghost predicate LeadsTo(s: State, c: nat, f: nat) {
    exists k: nat :: Nth(s, c, k) == Some(f)
  }

  /** A frame awaits an unfinished task that is itself, or one of its callers up to any depth. */
  ghost predicate AwaitsCaller(s: State, e: Event)
    requires Enabled(s, e)
  {
    && e.Await? && s.tasks[e.task].handle.Some? && !FrameOf(s, e.task).status.Done?
    && LeadsTo(s, e.caller, s.tasks[e.task].handle.value)
  }

  lemma {:induction false} NthAdds(s: State, f: nat, j: nat, k: nat)
    requires Nth(s, f, j).Some?
    ensures Nth(s, f, j + k) == Nth(s, Nth(s, f, j).value, k)
    decreases j
  {
    if j > 0 {
      NthAdds(s, CallerOf(s, f).value, j - 1, k);
    }
  }

  /** Until it comes to `f`, the way up is the same whatever caller `f` has. */
  lemma {:induction false} NthSame(s: State, n: State, f: nat, x: nat, k: nat)
    requires LinksBut(s, n, f) && forall j :: 0 <= j < k ==> Nth(s, x, j) != Some(f)
    ensures Nth(n, x, k) == Nth(s, x, k)
    decreases k
  {
    if k > 0 {
      assert Nth(s, x, 0) == Some(x);
      if CallerOf(s, x).Some? {
        var c := CallerOf(s, x).value;
        forall j | 0 <= j < k - 1 ensures Nth(s, c, j) != Some(f) {
          assert Nth(s, x, j + 1) == Nth(s, c, j);
        }
        NthSame(s, n, f, c, k - 1);
      }
    }
  }

  /** All frames but `f` have the same callers. */
  ghost predicate LinksBut(s: State, n: State, f: nat) {
    forall x: nat :: x != f ==> CallerOf(n, x) == CallerOf(s, x)
  }

  /** If the way up comes to `f`, there is a first time. */
  lemma {:induction false} FirstTime(s: State, x: nat, f: nat, k: nat) returns (m: nat)
    requires Nth(s, x, k) == Some(f)
    ensures m <= k && Nth(s, x, m) == Some(f) && forall j :: 0 <= j < m ==> Nth(s, x, j) != Some(f)
    decreases k
  {
    m := k;
    if j :| 0 <= j < k && Nth(s, x, j) == Some(f) {
      m := FirstTime(s, x, f, j);
    }
  }

  /** A new link closes a cycle exactly when its caller was below it already. */
  lemma LinkCloses(s: State, n: State, f: nat, c: nat)
    requires Acyclic(s) && LinksBut(s, n, f) && CallerOf(n, f) == Some(c)
    ensures !Acyclic(n) <==> LeadsTo(s, c, f)
  {
    if k: nat :| Nth(s, c, k) == Some(f) {
      var m := FirstTime(s, c, f, k);
      NthSame(s, n, f, c, m);
      assert Nth(n, f, m + 1) == Some(f);
    }
    if !Acyclic(n) {
      var x: nat, k: nat :| k > 0 && Nth(n, x, k) == Some(x);
      CycleLeads(s, n, f, c, x, k);
    }
  }

  lemma CycleLeads(s: State, n: State, f: nat, c: nat, x: nat, k: nat)
    requires Acyclic(s) && LinksBut(s, n, f) && CallerOf(n, f) == Some(c)
    requires k > 0 && Nth(n, x, k) == Some(x)
    ensures LeadsTo(s, c, f)
  {
    assert LinksBut(n, s, f);
    if j :| 0 <= j < k && Nth(n, x, j) == Some(f) {
      NthAdds(n, x, j, k);
      NthAdds(n, x, k, j);
      assert Nth(n, f, k) == Some(f) && Nth(n, c, k - 1) == Some(f);
      var m := FirstTime(n, c, f, k - 1);
      NthSame(n, s, f, c, m);
    } else {
      NthSame(n, s, f, x, k);
      assert false;
    }
  }

  lemma CycleExactly(s: State, e: Event)
    requires Enabled(s, e) && Acyclic(s)
    ensures !Acyclic(Step(s, e)) <==> AwaitsCaller(s, e)
  {
    var n := Step(s, e);
    if e.Await? && s.tasks[e.task].handle.Some? && !FrameOf(s, e.task).status.Done? {
      LinksOne(s, e);
      hide Acyclic, Nth, Step, CallerOf, LeadsTo;
      LinkCloses(s, n, s.tasks[e.task].handle.value, e.caller);
    } else {
      LinksNone(s, e);
      hide Nth, Step, CallerOf;
      SameLinks(s, n);
    }
  }

  lemma LinksOne(s: State, e: Event)
    requires Enabled(s, e) && e.Await? && s.tasks[e.task].handle.Some? && !FrameOf(s, e.task).status.Done?
    ensures var f := s.tasks[e.task].handle.value;
      LinksBut(s, Step(s, e), f) && CallerOf(Step(s, e), f) == Some(e.caller)
  {
  }

  ghost predicate LinksAlike(s: State, n: State) {
    forall x: nat :: CallerOf(n, x) == CallerOf(s, x)
  }

  lemma ResumeLinksNone(s: State, f: nat)
    requires f < |s.frames|
    ensures LinksAlike(s, Resumed(s, f))
  {
  }

  lemma LinksNone(s: State, e: Event)
    requires Enabled(s, e)
    requires e.Await? ==> s.tasks[e.task].handle.None? || FrameOf(s, e.task).status.Done?
    ensures LinksAlike(s, Step(s, e))
  {
    hide Resumed;
    match e
    case Start(t) =>
      if s.tasks[t].handle.Some? {
        ResumeLinksNone(s, s.tasks[t].handle.value);
      }
    case Wake(f) => ResumeLinksNone(With(s, f, s.frames[f].(owed := s.frames[f].owed - 1)), f);
    case Finish(f) =>
      if s.frames[f].caller.Some? {
        ResumeLinksNone(Ended(s, f).(resumed := s.resumed + [f]), s.frames[f].caller.value);
      }
    case _ =>
  }

  lemma {:induction false} NthAlike(s: State, n: State, x: nat, k: nat)
    requires LinksAlike(s, n)
    ensures Nth(n, x, k) == Nth(s, x, k)
    decreases k
  {
    if k > 0 && CallerOf(s, x).Some? {
      NthAlike(s, n, CallerOf(s, x).value, k - 1);
    }
  }

  lemma SameLinks(s: State, n: State)
    requires Acyclic(s) && LinksAlike(s, n)
    ensures Acyclic(n)
  {
    forall f: nat, k: nat | k > 0 ensures Nth(n, f, k) != Some(f) {
      NthAlike(s, n, f, k);
    }
  }

  /** No frame of the run awaits itself or one of its callers. */
  ghost predicate NoneAwaitsCaller(s: State, events: seq<Event>)
    decreases |events|
  {
    events == [] ||
    (if Enabled(s, events[0]) then !AwaitsCaller(s, events[0]) && NoneAwaitsCaller(Step(s, events[0]), events[1..])
     else NoneAwaitsCaller(s, events[1..]))
  }

  ghost predicate NeverCyclic(s: State, events: seq<Event>) {
    forall k :: 0 <= k <= |events| ==> Acyclic(Run(s, events[..k]))
  }

  lemma NeverNext(s: State, events: seq<Event>)
    requires events != [] && Acyclic(s)
    ensures NeverCyclic(s, events)
       <==> NeverCyclic(if Enabled(s, events[0]) then Step(s, events[0]) else s, events[1..])
  {
    var next := if Enabled(s, events[0]) then Step(s, events[0]) else s;
    assert events[..0] == [] && Run(s, []) == s;
    hide Run, Step, Enabled, Acyclic;
    if NeverCyclic(s, events) {
      forall k | 0 <= k <= |events[1..]| ensures Acyclic(Run(next, events[1..][..k])) {
        RunsNext(s, events, k + 1);
        assert Acyclic(Run(s, events[..k + 1]));
      }
    }
    if NeverCyclic(next, events[1..]) {
      forall k | 0 <= k <= |events| ensures Acyclic(Run(s, events[..k])) {
        if k > 0 {
          RunsNext(s, events, k);
          assert Acyclic(Run(next, events[1..][..k - 1]));
        }
      }
    }
  }

  lemma {:induction false} NeverExactly(s: State, events: seq<Event>)
    requires Acyclic(s)
    ensures NeverCyclic(s, events) <==> NoneAwaitsCaller(s, events)
    decreases |events|
  {
    if events == [] {
      assert forall k :: 0 <= k <= |events| ==> events[..k] == [];
    } else {
      var next := if Enabled(s, events[0]) then Step(s, events[0]) else s;
      NeverNext(s, events);
      if Enabled(s, events[0]) {
        CycleExactly(s, events[0]);
      }
      hide Acyclic, Run, Enabled, Step, AwaitsCaller;
      if Acyclic(next) {
        NeverExactly(next, events[1..]);
      } else {
        assert events[1..][..0] == [];
        StartsHere(next, events[1..]);
      }
    }
  }

  lemma StartsHere(s: State, events: seq<Event>)
    requires !Acyclic(s)
    ensures !NeverCyclic(s, events)
  {
    hide Acyclic;
    assert events[..0] == [] && Run(s, []) == s;
    assert !Acyclic(Run(s, events[..0]));
  }

  /** Over any run, caller links never close a cycle exactly when no frame awaits itself or one of its callers. */
  lemma NoCyclesExactly(events: seq<Event>)
    ensures NeverCyclic(EMPTY, events) <==> NoneAwaitsCaller(EMPTY, events)
  {
    EmptyIsAcyclic();
    NeverExactly(EMPTY, events);
  }

  lemma EmptyIsAcyclic()
    ensures Acyclic(EMPTY)
  {
  }

  lemma {:induction false} LastCallee(s: State, x: nat, k: nat, f: nat) returns (y: nat)
    requires k > 0 && Nth(s, x, k) == Some(f)
    ensures y < |s.frames| && s.frames[y].caller == Some(f)
    decreases k
  {
    if k == 1 {
      y := x;
    } else {
      y := LastCallee(s, CallerOf(s, x).value, k - 1, f);
    }
  }

  lemma CallersHaveStarted(s: State, x: nat, k: nat, f: nat)
    requires Inv(s) && x < |s.frames| && !s.frames[x].status.Created? && Nth(s, x, k) == Some(f)
    ensures f < |s.frames| && !s.frames[f].status.Created?
  {
    if k > 0 {
      var y := LastCallee(s, x, k, f);
      assert Waits(s, y);
    }
  }

  /** A frame that has not started is nobody's caller. */
  lemma InTimeAwaitsNoCaller(s: State, e: Event)
    requires Inv(s) && Enabled(s, e) && !ResumesEarly(s, e)
    ensures !AwaitsCaller(s, e)
  {
    if e.Await? {
      forall k: nat, f: nat | Nth(s, e.caller, k) == Some(f) ensures f < |s.frames| && !s.frames[f].status.Created? {
        CallersHaveStarted(s, e.caller, k, f);
      }
    }
  }

  lemma {:induction false} InTimeNoCaller(s: State, events: seq<Event>)
    requires Inv(s) && ResumesInTime(s, events)
    ensures NoneAwaitsCaller(s, events)
    decreases |events|
  {
    hide Inv, Step, Enabled, ResumesEarly, AwaitsCaller;
    if events != [] {
      if Enabled(s, events[0]) {
        StepKeeps(s, events[0]);
        InTimeAwaitsNoCaller(s, events[0]);
      }
      InTimeNoCaller(if Enabled(s, events[0]) then Step(s, events[0]) else s, events[1..]);
    }
  }

  /** So caller links form no cycle, not even through frames that have ended, where no task is resumed out of turn. */
  lemma NoCycles(events: seq<Event>)
    requires ResumesInTime(EMPTY, events)
    ensures Acyclic(Run(EMPTY, events))
  {
    EmptyKeeps();
    InTimeNoCaller(EMPTY, events);
    NoCyclesExactly(events);
    assert events[..|events|] == events;
    assert Acyclic(Run(EMPTY, events[..|events|]));
  }

  // ---- Runs that go wrong ----

  const TASKS: seq<Task> := [Task(true, Some(0)), Task(true, Some(1))]

  /** One frame runs. */
  const STARTED: State := ONE.(frames := [FRESH.(status := Running)])

  /** One frame runs, another is fresh. */
  const CALLING: State := ONE.(frames := [FRESH.(status := Running), FRESH.(owner := 1)], tasks := TASKS)

  /** The first awaits the second, which runs. */
  const CALLED: State := CALLING.(
    frames := [FRESH.(status := Awaiting(1)), FRESH.(status := Running, owner := 1, caller := Some(0), since := 1)],
    clock := 2)

  const TO_STARTED: seq<Event> := [Create, Start(0)]
  const TO_CALLING: seq<Event> := [Create, Start(0), Create]
  const TO_CALLED: seq<Event> := [Create, Start(0), Create, Await(0, 1)]

  lemma StartedFirst(events: seq<Event>)
    ensures Run(EMPTY, TO_STARTED + events) == Run(STARTED, events)
  {
    RunAppend(EMPTY, TO_STARTED, events);
    CreateFirst([Start(0)]);
    RunOne(ONE, Start(0));
    assert TO_STARTED == [Create] + [Start(0)] && Step(ONE, Start(0)) == STARTED;
  }

  lemma CallingFirst(events: seq<Event>)
    ensures Run(EMPTY, TO_CALLING + events) == Run(CALLING, events)
  {
    RunAppend(EMPTY, TO_CALLING, events);
    StartedFirst([Create]);
    RunOne(STARTED, Create);
    assert TO_CALLING == TO_STARTED + [Create] && Step(STARTED, Create) == CALLING;
  }

  lemma CalledFirst(events: seq<Event>)
    ensures Run(EMPTY, TO_CALLED + events) == Run(CALLED, events)
  {
    RunAppend(EMPTY, TO_CALLED, events);
    CallingFirst([Await(0, 1)]);
    RunOne(CALLING, Await(0, 1));
    assert TO_CALLED == TO_CALLING + [Await(0, 1)] && Step(CALLING, Await(0, 1)) == CALLED;
  }

  /** The task object of an awaited frame is destroyed before the frame ends: its caller reads a destroyed frame. */
  lemma DroppedWhileAwaited()
    ensures Run(EMPTY, TO_CALLED + [Drop(1), Return(1, 5), Finish(1)]).results == [Read(Some(1), false, Some(5))]
  {
    CalledFirst([Drop(1), Return(1, 5), Finish(1)]);
    var s1 := Step(CALLED, Drop(1));
    var s2 := Step(s1, Return(1, 5));
    RunCons(CALLED, Drop(1), [Return(1, 5), Finish(1)]);
    RunCons(s1, Return(1, 5), [Finish(1)]);
    RunOne(s2, Finish(1));
  }

  /** A task that was moved from is awaited: the value of no frame is read. */
  lemma MovedFromAwaited()
    ensures Run(EMPTY, TO_CALLING + [Move(1), Await(0, 1)]).results == [Read(None, false, None)]
  {
    CallingFirst([Move(1), Await(0, 1)]);
    RunCons(CALLING, Move(1), [Await(0, 1)]);
    RunOne(Step(CALLING, Move(1)), Await(0, 1));
  }

  /** A callee awaits its caller's task: each is the other's caller. */
  lemma CalleeAwaitsCaller()
    ensures var s := Run(EMPTY, TO_CALLED + [Await(1, 0)]);
      CallerOf(s, 0) == Some(1) && CallerOf(s, 1) == Some(0) && !Acyclic(s)
  {
    CalledFirst([Await(1, 0)]);
    RunOne(CALLED, Await(1, 0));
    var s := Step(CALLED, Await(1, 0));
    assert Nth(s, 0, 2) == Nth(s, 1, 1) == Some(0);
  }

  /** A task that is queued for the thread pool and then awaited: the worker's resume finds it running. */
  lemma QueuedTaskResumedTwice()
    ensures Run(EMPTY, TO_STARTED + [Suspend(0), Create, Start(1), Await(1, 0), Wake(0)]).doubled == [0]
  {
    StartedFirst([Suspend(0), Create, Start(1), Await(1, 0), Wake(0)]);
    var s1 := Step(STARTED, Suspend(0));
    var s2 := Step(s1, Create);
    RunCons(STARTED, Suspend(0), [Create, Start(1), Await(1, 0), Wake(0)]);
    RunCons(s1, Create, [Start(1), Await(1, 0), Wake(0)]);
    AwaitsQueued(s2);
  }

  lemma AwaitsQueued(s: State)
    requires s.tasks == TASKS && |s.frames| == 2 && s.frames[0].status.Suspended? && s.frames[0].owed == 1
    requires s.frames[1].status.Created? && s.doubled == []
    ensures Run(s, [Start(1), Await(1, 0), Wake(0)]).doubled == [0]
  {
    var s1 := Step(s, Start(1));
    var s2 := Step(s1, Await(1, 0));
    RunCons(s, Start(1), [Await(1, 0), Wake(0)]);
    RunCons(s1, Await(1, 0), [Wake(0)]);
    RunOne(s2, Wake(0));
  }

  /** Awaited once a worker has dequeued it, the task is resumed while it runs. */
  lemma RunningTaskResumedTwice()
    ensures Run(EMPTY, TO_STARTED + ([Suspend(0), Wake(0)] + [Create, Start(1), Await(1, 0)])).doubled == [0]
  {
    StartedFirst([Suspend(0), Wake(0)] + [Create, Start(1), Await(1, 0)]);
    hide Step;
    RunAppend(STARTED, [Suspend(0), Wake(0)], [Create, Start(1), Await(1, 0)]);
    QueuedAndBack();
    AwaitsRunning();
  }

  lemma QueuedAndBack()
    ensures Run(STARTED, [Suspend(0), Wake(0)]) == STARTED
  {
    RunCons(STARTED, Suspend(0), [Wake(0)]);
    RunOne(Step(STARTED, Suspend(0)), Wake(0));
  }

  lemma AwaitsRunning()
    ensures Run(STARTED, [Create, Start(1), Await(1, 0)]).doubled == [0]
  {
    RunCons(STARTED, Create, [Start(1), Await(1, 0)]);
    assert Step(STARTED, Create) == CALLING;
    RunCons(CALLING, Start(1), [Await(1, 0)]);
    RunOne(Step(CALLING, Start(1)), Await(1, 0));
  }

  /**
   Awaited once it awaits a callee of its own, as when the event loop already runs, the task goes on behind that
   `co_await` while its callee is under way, on a value nobody set; the callee then resumes it again at its end.
   */
  lemma CallingTaskResumedTwice()
    ensures var s := Run(EMPTY, TO_CALLED + [Create, Start(2), Await(2, 0)]);
      && Is(s, 0, Running) && Is(s, 1, Running) && s.results == [Read(Some(1), true, None)]
      && Run(s, [Return(1, 5), Finish(1)]).doubled == [0]
  {
    CalledFirst([Create, Start(2), Await(2, 0)]);
    var s1 := Step(CALLED, Create);
    var s2 := Step(s1, Start(2));
    var s3 := Step(s2, Await(2, 0));
    RunCons(CALLED, Create, [Start(2), Await(2, 0)]);
    RunCons(s1, Start(2), [Await(2, 0)]);
    RunOne(s2, Await(2, 0));
    CalleeEnds(s3);
  }

  lemma CalleeEnds(s: State)
    requires |s.frames| > 1 && s.frames[0].status.Running? && s.frames[1].status.Running?
    requires s.frames[1].caller == Some(0) && s.doubled == []
    ensures Run(s, [Return(1, 5), Finish(1)]).doubled == [0]
  {
    RunCons(s, Return(1, 5), [Finish(1)]);
    RunOne(Step(s, Return(1, 5)), Finish(1));
  }
}
