/**
 The multishot accept: one request that the kernel answers with many completions.

 The guard is armed on the first await, and again whenever a completion says that no more will follow. The
 server is an object whose methods are the code's steps; between any two of them the kernel may post. `Step` is
 the same machine on values, and the theorems are about every run of it.
 */
module MultishotAccept {
  import opened CompletionLoop

  /** A completion of the accept request. */
  datatype Completion = Completion(res: int, flags: nat)

  /** `IORING_CQE_F_MORE`, the second flag bit. */
  predicate More(flags: nat) {
    flags / 2 % 2 == 1
  }

  /** Where `accept_client` is: not started, waiting, about to go on, at work on what it was given, or destroyed. */
  datatype Place = Unstarted | Suspended | Woken | Running | Gone

  /**
   `armed` counts the accept requests the kernel holds, `pending` the completions it has posted; `returned` are
   the values `await_resume` gave, `handled` the descriptors for which a client task was started.
   */
  datatype State = State(
    initialAwait: bool, cell: SqeData, place: Place, armed: nat, pending: seq<Completion>,
    returned: seq<int>, handled: seq<int>, posted: seq<Completion>)

  const FRESH: State := State(true, SqeData(NULL, 0, 0), Unstarted, 0, [], [], [], [])

  /** The coroutine's address. */
  const ACCEPT_CLIENT: nat := 1

  /** `Take` names what the time-out test reads in the ring slot, behind its release: see `CompletionLoop.Reread`. */
  datatype Event = Await | Post(res: int, flags: nat) | Take(reread: int) | Resume

  predicate Enabled(s: State, e: Event) {
    match e
    case Await => s.place in {Unstarted, Running}
    case Post(_, _) => s.armed > 0
    case Take(_) => s.place == Suspended && s.pending != []
    case Resume => s.place == Woken
  }

  function Step(s: State, e: Event): State
    requires Enabled(s, e)
  {
    match e
    case Await =>
      s.(place := Suspended, cell := s.cell.(coroutine := ACCEPT_CLIENT), initialAwait := false,
         armed := if s.initialAwait then s.armed + 1 else s.armed)
    case Post(res, flags) =>
      s.(pending := s.pending + [Completion(res, flags)], posted := s.posted + [Completion(res, flags)],
         armed := if More(flags) then s.armed else s.armed - 1)
    case Take(reread) =>
      s.(cell := s.cell.(res := s.pending[0].res, flags := s.pending[0].flags), pending := s.pending[1..],
         place := if s.cell.coroutine == NULL then s.place else if reread == TIMED_OUT then Gone else Woken)
    case Resume =>
      s.(place := Running, armed := if More(s.cell.flags) then s.armed else s.armed + 1,
         returned := s.returned + [s.cell.res],
         handled := if s.cell.res == -1 then s.handled else s.handled + [s.cell.res])
  }

  /** The states of a run; events that are not enabled do not happen. */
  function Run(s: State, events: seq<Event>): State
    decreases |events|
  {
    if events == [] then s
    else Run(if Enabled(s, events[0]) then Step(s, events[0]) else s, events[1..])
  }

  /** One more event is one more step, if it can happen. */
  lemma {:induction false} RunNext(s: State, events: seq<Event>, e: Event)
    ensures var end := Run(s, events); Run(s, events + [e]) == if Enabled(end, e) then Step(end, e) else end
    decreases |events|
  {
    hide Enabled, Step;
    if events == [] {
      assert [] + [e] == [e] && [e][1..] == [];
    } else {
      assert (events + [e])[1..] == events[1..] + [e];
      RunNext(if Enabled(s, events[0]) then Step(s, events[0]) else s, events[1..], e);
    }
  }

  // ---- The flag that says more will follow ----

  /** Flags that end in 2 or 3 modulo 4 have the bit, flags that end in 0 or 1 have not, whatever stands above it. */
  lemma MoreExactly(k: nat)
    ensures More(4 * k + 2) && More(4 * k + 3) && !More(4 * k) && !More(4 * k + 1)
  {
    assert (4 * k) / 2 == 2 * k && (4 * k + 1) / 2 == 2 * k;
    assert (4 * k + 2) / 2 == 2 * k + 1 && (4 * k + 3) / 2 == 2 * k + 1;
  }

  lemma MoreByRemainder(flags: nat)
    ensures More(flags) <==> flags % 4 >= 2
  {
    MoreExactly(flags / 4);
  }

  /** What a completion with such flags does to the request: it stays with the kernel, or ends. */
  lemma PostByFlags(s: State, res: int, k: nat)
    requires s.armed > 0
    ensures Step(s, Post(res, 4 * k + 2)).armed == s.armed == Step(s, Post(res, 4 * k + 3)).armed
    ensures Step(s, Post(res, 4 * k)).armed == s.armed - 1 == Step(s, Post(res, 4 * k + 1)).armed
  {
    MoreExactly(k);
    hide More;
  }

  /** And what `await_resume` does about it: nothing while the kernel holds the request, else it submits it once. */
  lemma ResumeByFlags(s: State, k: nat)
    requires s.place == Woken
    ensures s.cell.flags == 4 * k + 2 || s.cell.flags == 4 * k + 3 ==> Step(s, Resume).armed == s.armed
    ensures s.cell.flags == 4 * k || s.cell.flags == 4 * k + 1 ==> Step(s, Resume).armed == s.armed + 1
  {
    MoreExactly(k);
    hide More;
  }

  /**
   From the post to the resume: an accept whose flags end in 2 or 3 modulo 4 leaves the one request armed throughout,
   one whose flags end in 0 or 1 ends it and `await_resume` arms it again. Either way one is armed behind it.
   */
  lemma AcceptByFlags(res: int, flags: nat, reread: int)
    requires reread != -62
    ensures Enabled(FRESH, Await) && Enabled(Step(FRESH, Await), Post(res, flags))
    ensures var posted := Step(Step(FRESH, Await), Post(res, flags));
      && posted.armed == (if flags % 4 >= 2 then 1 else 0) && Enabled(posted, Take(reread))
      && var taken := Step(posted, Take(reread));
         && taken.armed == posted.armed && Enabled(taken, Resume)
         && Step(taken, Resume).armed == 1 && Step(taken, Resume).returned == [res]
         && Step(taken, Resume).handled == if res == -1 then [] else [res]
  {
    MoreByRemainder(flags);
    hide More;
  }

  // ---- Exactly one request ----

  /** Completions that end their request. */
  function Closing(cs: seq<Completion>): nat {
    if cs == [] then 0 else (if More(cs[0].flags) then 0 else 1) + Closing(cs[1..])
  }

  /** Completions that end their request and have not been through `await_resume`. */
  function Unconsumed(s: State): nat {
    Closing(s.pending) + if s.place in {Woken, Gone} && !More(s.cell.flags) then 1 else 0
  }

  function Results(cs: seq<Completion>): (r: seq<int>)
    ensures |r| == |cs| && forall i :: 0 <= i < |cs| ==> r[i] == cs[i].res
  {
    seq(|cs|, i requires 0 <= i < |cs| => cs[i].res)
  }

  /** The results not returned yet: one in the cell, if the coroutine has been woken, and the pending ones. */
  function Ahead(s: State): seq<int> {
    if s.place in {Woken, Gone} then [s.cell.res] + Results(s.pending) else Results(s.pending)
  }

  /** The list without the value that `accept_client` skips. */
  function Kept(results: seq<int>): seq<int> {
    if results == [] then []
    else Kept(results[..|results| - 1]) + if results[|results| - 1] == -1 then [] else [results[|results| - 1]]
  }

  ghost predicate Inv(s: State) {
    && (s.place == Unstarted ==> s.initialAwait && s.armed == 0 && s.pending == [])
    && (s.place != Unstarted ==>
          !s.initialAwait && s.cell.coroutine == ACCEPT_CLIENT && s.armed + Unconsumed(s) == 1)
    && s.handled == Kept(s.returned)
    && Results(s.posted) == s.returned + Ahead(s)
    && (forall i :: 0 <= i < |s.pending| - 1 ==> More(s.pending[i].flags))
  }

  lemma {:induction false} ClosingAppend(cs: seq<Completion>, c: Completion)
    ensures Closing(cs + [c]) == Closing(cs) + if More(c.flags) then 0 else 1
    decreases |cs|
  {
    if cs == [] {
      assert cs + [c] == [c];
    } else {
      ClosingAppend(cs[1..], c);
      assert (cs + [c])[1..] == cs[1..] + [c];
    }
  }

  lemma {:induction false} NoneClosing(cs: seq<Completion>)
    requires Closing(cs) == 0
    ensures forall i :: 0 <= i < |cs| ==> More(cs[i].flags)
    decreases |cs|
  {
    if cs != [] {
      NoneClosing(cs[1..]);
    }
  }

  lemma StepKeeps(s: State, e: Event)
    requires Inv(s) && Enabled(s, e)
    ensures Inv(Step(s, e))
  {
    match e
    case Await => AwaitKeeps(s);
    case Post(res, flags) => PostKeeps(s, res, flags);
    case Take(reread) => TakeKeeps(s, reread);
    case Resume => ResumeKeeps(s);
  }

  lemma AwaitKeeps(s: State)
    requires Inv(s) && Enabled(s, Await)
    ensures Inv(Step(s, Await))
  {
    hide More, Kept, Results;
  }

  lemma TakeKeeps(s: State, reread: int)
    requires Inv(s) && Enabled(s, Take(reread))
    ensures Inv(Step(s, Take(reread)))
  {
    var c, rest := s.pending[0], s.pending[1..];
    FirstResult(s.pending);
    hide More, Kept, Results;
    assert forall i :: 0 <= i < |rest| ==> rest[i] == s.pending[i + 1];
  }

  lemma FirstResult(cs: seq<Completion>)
    requires cs != []
    ensures Results(cs) == [cs[0].res] + Results(cs[1..])
  {
  }

  lemma Assoc(a: seq<int>, b: seq<int>, c: seq<int>)
    ensures a + (b + c) == a + b + c
  {
  }

  lemma ResumeKeeps(s: State)
    requires Inv(s) && Enabled(s, Resume)
    ensures Inv(Step(s, Resume))
  {
    KeptNext(s.returned, s.cell.res);
    hide More, Results, Closing, Kept;
    Assoc(s.returned, [s.cell.res], Results(s.pending));
  }

  lemma KeptNext(results: seq<int>, r: int)
    ensures Kept(results + [r]) == if r == -1 then Kept(results) else Kept(results) + [r]
  {
    var all := results + [r];
    assert all[..|all| - 1] == results;
    assert Kept(results) + [] == Kept(results);
  }

  lemma PostKeeps(s: State, res: int, flags: nat)
    requires Inv(s) && s.armed > 0
    ensures Inv(Step(s, Post(res, flags)))
  {
    var c := Completion(res, flags);
    ClosingAppend(s.pending, c);
    NoneClosing(s.pending);
    LastResult(s.pending, c);
    LastResult(s.posted, c);
    hide More, Results, Closing, Kept;
    Assoc([s.cell.res], Results(s.pending), [res]);
    Assoc(s.returned, Ahead(s), [res]);
  }

  lemma LastResult(cs: seq<Completion>, c: Completion)
    ensures Results(cs + [c]) == Results(cs) + [c.res]
  {
  }

  lemma {:induction false} RunKeeps(s: State, events: seq<Event>)
    requires Inv(s)
    ensures Inv(Run(s, events))
    decreases |events|
  {
    if events != [] {
      if Enabled(s, events[0]) {
        StepKeeps(s, events[0]);
      }
      RunKeeps(if Enabled(s, events[0]) then Step(s, events[0]) else s, events[1..]);
    }
  }

  /**
   In every state of every run after the first await, the requests held by the kernel and the completions that
   end one and have not been through `await_resume` make exactly one: accepting is never armed twice, and disarmed
   only until `await_resume` runs, which `DestroyedExactly` says when it never does.
   */
  lemma OneRequest(events: seq<Event>)
    ensures var s := Run(FRESH, events);
      s.place != Unstarted ==> s.armed + Unconsumed(s) == 1
  {
    RunKeeps(FRESH, events);
  }

  /** Some completion of the run is taken for a time-out. */
  ghost predicate TakenForTimeOut(s: State, events: seq<Event>)
    decreases |events|
  {
    events != [] &&
    (if Enabled(s, events[0]) then
       events[0] == Take(TIMED_OUT) || TakenForTimeOut(Step(s, events[0]), events[1..])
     else TakenForTimeOut(s, events[1..]))
  }

  lemma {:induction false} GoneStays(s: State, events: seq<Event>)
    requires s.place == Gone
    ensures Run(s, events).place == Gone
    decreases |events|
  {
    if events != [] {
      GoneStays(if Enabled(s, events[0]) then Step(s, events[0]) else s, events[1..]);
    }
  }

  lemma {:induction false} RunDestroys(s: State, events: seq<Event>)
    requires Inv(s) && s.place != Gone
    ensures Run(s, events).place == Gone <==> TakenForTimeOut(s, events)
    decreases |events|
  {
    hide Inv, More;
    if events != [] {
      var next := if Enabled(s, events[0]) then Step(s, events[0]) else s;
      if Enabled(s, events[0]) {
        StepKeeps(s, events[0]);
        StepDestroys(s, events[0]);
      }
      hide Step, Enabled;
      if next.place == Gone {
        GoneStays(next, events[1..]);
      } else {
        RunDestroys(next, events[1..]);
      }
    }
  }

  lemma StepDestroys(s: State, e: Event)
    requires Inv(s) && Enabled(s, e) && s.place != Gone
    ensures Step(s, e).place == Gone <==> e == Take(TIMED_OUT)
  {
  }

  /** The accepting coroutine is destroyed exactly when the test for a time-out once reads one. */
  lemma DestroyedExactly(events: seq<Event>)
    ensures Run(FRESH, events).place == Gone <==> TakenForTimeOut(FRESH, events)
  {
    RunDestroys(FRESH, events);
  }

  /** A completion that ends the request has nothing behind it. */
  lemma ClosingIsLast(events: seq<Event>, i: nat)
    requires i + 1 < |Run(FRESH, events).pending|
    ensures More(Run(FRESH, events).pending[i].flags)
  {
    RunKeeps(FRESH, events);
  }

  /** Every result the kernel posted is returned once, in order, or still waits; all but -1 start a client task. */
  lemma ResultsInOrder(events: seq<Event>)
    ensures var s := Run(FRESH, events);
      && s.returned <= Results(s.posted) && s.handled == Kept(s.returned)
      && (s.place !in {Woken, Gone} && s.pending == [] ==> s.returned == Results(s.posted))
  {
    RunKeeps(FRESH, events);
  }

  /** Serving what is pending, with the kernel still; `rereads` is what each test for a time-out reads. */
  function Served(s: State, rereads: seq<int>): State
    requires s.place == Suspended && |rereads| <= |s.pending| && s.cell.coroutine != NULL && TIMED_OUT !in rereads
    decreases |rereads|
  {
    if rereads == [] then s else Served(Step(Step(Step(s, Take(rereads[0])), Resume), Await), rereads[1..])
  }

  /** Whatever happened before, once the pending completions are served the kernel holds one request again. */
  lemma {:induction false} ServingRearms(s: State, rereads: seq<int>)
    requires Inv(s) && s.place == Suspended && |rereads| == |s.pending| && TIMED_OUT !in rereads
    ensures var end := Served(s, rereads); end.armed == 1 && end.pending == [] && Inv(end)
    decreases |rereads|
  {
    if rereads != [] {
      var taken := Step(s, Take(rereads[0]));
      StepKeeps(s, Take(rereads[0]));
      StepKeeps(taken, Resume);
      StepKeeps(Step(taken, Resume), Await);
      ServingRearms(Step(Step(taken, Resume), Await), rereads[1..]);
    }
  }

  // ---- Failed accepts ----

  lemma {:induction false} KeptMembers(results: seq<int>, r: int)
    ensures r in Kept(results) <==> r != -1 && r in results
    decreases |results|
  {
    if results != [] {
      KeptMembers(results[..|results| - 1], r);
      assert results == results[..|results| - 1] + [results[|results| - 1]];
    }
  }

  /**
   Only -1 is taken for a failure, but the kernel reports failures as negated error codes: client tasks are
   started for true descriptors alone exactly when no result other than -1 is negative.
   */
  lemma DescriptorsExactly(events: seq<Event>)
    ensures var s := Run(FRESH, events);
      (forall d :: d in s.handled ==> d >= 0) <==> (forall r :: r in s.returned ==> r >= -1)
  {
    RunKeeps(FRESH, events);
    var s := Run(FRESH, events);
    forall r ensures r in s.handled <==> r != -1 && r in s.returned {
      KeptMembers(s.returned, r);
    }
  }

  /** A run in which a failed accept (-24, too many open files) starts a client task. */
  lemma FailureHandled()
    ensures Run(FRESH, [Await, Post(-24, 2), Take(-24), Resume]).handled == [-24]
  {
    var events := [Await, Post(-24, 2), Take(-24), Resume];
    var s1 := Step(FRESH, Await);
    var s2 := Step(s1, Post(-24, 2));
    var s3 := Step(s2, Take(-24));
    assert events[1..] == [Post(-24, 2), Take(-24), Resume] && events[1..][1..] == [Take(-24), Resume];
    assert [Take(-24), Resume][1..] == [Resume] && [Resume][1..] == [];
    assert Run(s3, [Resume]) == Step(s3, Resume);
    assert Run(s2, [Take(-24), Resume]) == Run(s3, [Resume]);
  }

  // ---- The server as an object ----

  class AcceptServer {
    var initialAwait: bool
    var sqeData: SqeData
    var armed: nat
    var pending: seq<Completion>
    var handled: seq<int>
    ghost var place: Place
    ghost var returned: seq<int>
    ghost var posted: seq<Completion>

    ghost function Now(): State
      reads this
    {
      State(initialAwait, sqeData, place, armed, pending, returned, handled, posted)
    }

    constructor ()
      ensures Now() == FRESH
      ensures initialAwait && sqeData == SqeData(0, 0, 0) && place == Unstarted && armed == 0 && pending == []
    {
      initialAwait, sqeData, armed, pending, handled := true, SqeData(NULL, 0, 0), 0, [], [];
      place, returned, posted := Unstarted, [], [];
    }

    method SubmitMultishotAccept()
      modifies this`armed
      ensures armed == old(armed) + 1
    {
      armed := armed + 1;
    }

    /** `await_suspend`: only the first await submits. */
    method AwaitSuspend(coroutine: nat)
      requires (place == Unstarted || place == Running) && coroutine == ACCEPT_CLIENT
      modifies this
      ensures Now() == Step(old(Now()), Await)
      ensures armed == old(armed) + (if old(initialAwait) then 1 else 0) && !initialAwait && place == Suspended
      ensures sqeData == SqeData(coroutine, old(sqeData).res, old(sqeData).flags)
      ensures pending == old(pending) && posted == old(posted) && returned == old(returned) && handled == old(handled)
    {
      sqeData := sqeData.(coroutine := coroutine);
      if initialAwait {
        SubmitMultishotAccept();
        initialAwait := false;
      }
      place := Suspended;
    }

    /** `await_resume`: a completion that ends the request submits it again. */
    method AwaitResume() returns (res: int)
      requires place == Woken
      modifies this`armed, this`place, this`returned
      ensures place == Running && returned == old(returned) + [res] && res == sqeData.res
      ensures armed == if More(sqeData.flags) then old(armed) else old(armed) + 1
      ensures armed == if sqeData.flags % 4 >= 2 then old(armed) else old(armed) + 1
    {
      MoreByRemainder(sqeData.flags);
      if !More(sqeData.flags) {
        SubmitMultishotAccept();
      }
      place, returned := Running, returned + [sqeData.res];
      return sqeData.res;
    }

    /** The body of the accept loop up to its next await. */
    method AcceptOne()
      requires place == Woken
      modifies this
      ensures Now() == Step(old(Now()), Resume)
      ensures armed == (if old(sqeData).flags % 4 >= 2 then old(armed) else old(armed) + 1) && place == Running
      ensures returned == old(returned) + [old(sqeData).res]
      ensures handled == old(handled) + if old(sqeData).res == -1 then [] else [old(sqeData).res]
      ensures sqeData == old(sqeData) && pending == old(pending) && posted == old(posted)
      ensures initialAwait == old(initialAwait)
    {
      var descriptor := AwaitResume();
      if descriptor == -1 {
        return;
      }
      handled := handled + [descriptor];
    }

    /** The event loop writes the next result to the cell, and wakes or destroys whoever waits on it. */
    method Dispatch(reread: int)
      requires place == Suspended && pending != []
      modifies this
      ensures Now() == Step(old(Now()), Take(reread))
      ensures sqeData == SqeData(old(sqeData).coroutine, old(pending)[0].res, old(pending)[0].flags)
      ensures place == if old(sqeData).coroutine == 0 then Suspended else if reread == -62 then Gone else Woken
      ensures pending == old(pending)[1..] && posted == old(posted) && armed == old(armed)
      ensures returned == old(returned) && handled == old(handled) && initialAwait == old(initialAwait)
    {
      sqeData := sqeData.(res := pending[0].res);
      sqeData := sqeData.(flags := pending[0].flags);
      pending := pending[1..];
      if sqeData.coroutine != NULL {
        if reread == TIMED_OUT {
          place := Gone;
        } else {
          place := Woken;
        }
      }
    }

    /** The kernel answers a request it holds. */
    method KernelPosts(res: int, flags: nat)
      requires armed > 0
      modifies this
      ensures Now() == Step(old(Now()), Post(res, flags))
      ensures armed == if flags % 4 >= 2 then old(armed) else old(armed) - 1
      ensures pending == old(pending) + [Completion(res, flags)] && posted == old(posted) + [Completion(res, flags)]
      ensures sqeData == old(sqeData) && place == old(place) && initialAwait == old(initialAwait)
      ensures returned == old(returned) && handled == old(handled)
    {
      MoreByRemainder(flags);
      pending := pending + [Completion(res, flags)];
      posted := posted + [Completion(res, flags)];
      if !More(flags) {
        armed := armed - 1;
      }
    }
  }
}
