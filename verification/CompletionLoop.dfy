/**
 One pass of the event loop over the completion ring, on values.

 The kernel puts completions at the tail of the ring, the loop takes them from its head. `Turn` says what the
 kernel posts, and what a resumed coroutine writes, during one iteration. `Passed` is what a pass does to the list
 of pending completions, `Rounds` the endless loop, and the theorems are about them; the ring with its counters,
 and the loop over it, are objects in `CompletionRing`.
 */
module CompletionLoop {

  /** A timed-out wait, `-ETIME`. */
  const TIMED_OUT: int := -62

  const NULL: nat := 0

  /** A completion; `data` is the address of the `sqe_data` it was submitted with. */
  datatype Cqe = Cqe(data: nat, res: int, flags: nat)

  datatype SqeData = SqeData(coroutine: nat, res: int, flags: nat)

  type Memory = map<nat, SqeData>

  /** A cell nobody has written holds what a default `sqe_data` holds. */
  function Cell(m: Memory, at: nat): (cell: SqeData)
    ensures at !in m ==> cell.coroutine == 0 && cell.res == 0 && cell.flags == 0
  {
    if at in m then m[at] else SqeData(NULL, 0, 0)
  }

  /** What happens around an iteration: posts behind the release, and writes and posts while a coroutine runs. */
  datatype Turn = Turn(early: seq<Cqe>, writes: Memory, late: seq<Cqe>)

  datatype Action = Skipped | Resumed | Destroyed

  /**
   One iteration: the completion, the coroutine found in its cell, what the loop did, what the slot test read, and how
   many completions the kernel had posted by then.
   */
  datatype Visit = Visit(cqe: Cqe, coroutine: nat, action: Action, reread: int, count: nat)

  /** What a resumed awaiter found in its cell when it ran. */
  datatype Read = Read(cell: nat, res: int, flags: nat)

  // ---- The pass on values ----

  /** The kernel posts what fits; the rest waits in its backlog. */
  function Fitting(pending: seq<Cqe>, batch: seq<Cqe>, size: nat): (r: seq<Cqe>)
    requires |pending| <= size
    ensures |pending| + |r| <= size && r <= batch
  {
    if |pending| + |batch| <= size then batch else batch[..size - |pending|]
  }

  datatype Loop = Loop(pending: seq<Cqe>, memory: Memory, log: seq<Visit>, heard: seq<Read>, posted: seq<Cqe>)

  predicate Fits(s: Loop, size: nat) {
    |s.pending| <= size
  }

  function Posting(s: Loop, batch: seq<Cqe>, size: nat): (r: Loop)
    requires Fits(s, size)
    ensures Fits(r, size)
  {
    var b := Fitting(s.pending, batch, size);
    s.(pending := s.pending + b, posted := s.posted + b)
  }

  /**
   The result in the slot of the oldest completion, once it is released and the kernel has posted `early`: it is
   overwritten when the kernel fills the whole ring.
   */
  function Reread(pending: seq<Cqe>, early: seq<Cqe>, size: nat): int
    requires 0 < |pending| <= size
  {
    var after := pending[1..] + Fitting(pending[1..], early, size);
    if |after| == size then after[size - 1].res else pending[0].res
  }

  function Chosen(coroutine: nat, reread: int): Action {
    if coroutine == NULL then Skipped else if reread == TIMED_OUT then Destroyed else Resumed
  }

  function Stored(m: Memory, c: Cqe): Memory {
    m[c.data := SqeData(Cell(m, c.data).coroutine, c.res, c.flags)]
  }

  /** The first half of the loop body: the result goes to the cell, and the slot back to the kernel. */
  function Taken(s: Loop): Loop
    requires s.pending != []
  {
    s.(pending := s.pending[1..], memory := Stored(s.memory, s.pending[0]))
  }

  /** The coroutine is resumed: its awaiter reads the cell as it is now, and then it may write to any cell. */
  function Ran(s: Loop, at: nat, writes: Memory): Loop {
    var cell := Cell(s.memory, at);
    s.(heard := s.heard + [Read(at, cell.res, cell.flags)], memory := s.memory + writes)
  }

  /** One iteration of the loop: the awaiter runs behind the release and whatever the kernel posted then. */
  function Visited(s: Loop, turn: Turn, size: nat): (r: Loop)
    requires Fits(s, size) && s.pending != []
    ensures Fits(r, size)
  {
    var c := s.pending[0];
    var waited := Posting(Taken(s), turn.early, size);
    var coroutine, reread := Cell(Taken(s).memory, c.data).coroutine, Reread(s.pending, turn.early, size);
    var action := Chosen(coroutine, reread);
    var ran := match action
      case Skipped => waited
      case Resumed => Ran(waited, c.data, turn.writes)
      case Destroyed => waited.(memory := waited.memory + turn.writes);
    Posting(ran.(log := s.log + [Visit(c, coroutine, action, reread, |waited.posted|)]), turn.late, size)
  }

  /** `n` iterations from the `k`-th turn on. */
  function Passed(s: Loop, turns: nat -> Turn, k: nat, n: nat, size: nat): (r: Loop)
    requires Fits(s, size) && n <= |s.pending|
    ensures Fits(r, size)
    decreases n
  {
    if n == 0 then s else Passed(Visited(s, turns(k), size), turns, k + 1, n - 1, size)
  }

  // ---- What a pass amounts to ----

  function Cqes(log: seq<Visit>): (r: seq<Cqe>)
    ensures |r| == |log| && forall i :: 0 <= i < |log| ==> r[i] == log[i].cqe
  {
    seq(|log|, i requires 0 <= i < |log| => log[i].cqe)
  }

  /** Nothing is lost, doubled or reordered: what was visited and what is pending is all there ever was. */
  ghost predicate Conserves(before: Loop, after: Loop, visits: nat) {
    && before.log <= after.log && |after.log| == |before.log| + visits
    && before.posted <= after.posted
    && Cqes(after.log[|before.log|..]) + after.pending == before.pending + after.posted[|before.posted|..]
  }

  lemma Assoc(a: seq<Cqe>, b: seq<Cqe>, c: seq<Cqe>)
    ensures a + (b + c) == a + b + c
  {
  }

  /** What an iteration does to the lists. */
  lemma VisitLists(s: Loop, turn: Turn, size: nat) returns (a: seq<Cqe>, b: seq<Cqe>, v: Visit)
    requires Fits(s, size) && s.pending != []
    ensures var r := Visited(s, turn, size);
      && r.pending == s.pending[1..] + a + b && r.posted == s.posted + a + b
      && r.log == s.log + [v] && v.cqe == s.pending[0]
  {
    a := Fitting(s.pending[1..], turn.early, size);
    b := Fitting(s.pending[1..] + a, turn.late, size);
    v := Visited(s, turn, size).log[|s.log|];
    hide Fitting, Reread, Stored, Cell;
  }

  lemma VisitConserves(s: Loop, turn: Turn, size: nat)
    requires Fits(s, size) && s.pending != []
    ensures Conserves(s, Visited(s, turn, size), 1)
    ensures |Visited(s, turn, size).pending| >= |s.pending| - 1
  {
    hide Visited;
    var a, b, v := VisitLists(s, turn, size);
    var r := Visited(s, turn, size);
    var c, rest := s.pending[0], s.pending[1..];
    Assoc(s.posted, a, b);
    assert r.posted[|s.posted|..] == a + b;
    assert r.log[|s.log|..] == [v] && Cqes([v]) == [c];
    Assoc(rest, a, b);
    Assoc([c], rest, a + b);
    assert [c] + rest == s.pending;
  }

  lemma ConservesOn(a: Loop, b: Loop, c: Loop, m: nat, n: nat)
    requires Conserves(a, b, m) && Conserves(b, c, n)
    ensures Conserves(a, c, m + n)
  {
    var first, second := b.log[|a.log|..], c.log[|b.log|..];
    var p, q := b.posted[|a.posted|..], c.posted[|b.posted|..];
    assert c.log[..|b.log|] == b.log && c.posted[..|b.posted|] == b.posted;
    assert c.log[|a.log|..] == first + second && c.posted[|a.posted|..] == p + q;
    assert Cqes(first + second) == Cqes(first) + Cqes(second);
    Assoc(Cqes(first), Cqes(second), c.pending);
    Assoc(Cqes(first), b.pending, q);
    Assoc(a.pending, p, q);
  }

  lemma NothingConserves(s: Loop)
    ensures Conserves(s, s, 0)
  {
    assert s.log[|s.log|..] == [] && s.posted[|s.posted|..] == [];
    assert [] + s.pending == s.pending + [];
  }

  /**
   A pass over `n` completions visits each of the first `n` pending ones once and in order, and what the kernel
   posted meanwhile waits behind the rest, in order.
   */
  lemma {:induction false} PassConserves(s: Loop, turns: nat -> Turn, k: nat, n: nat, size: nat)
    requires Fits(s, size) && n <= |s.pending|
    ensures Conserves(s, Passed(s, turns, k, n, size), n)
    decreases n
  {
    hide Conserves, Visited;
    if n == 0 {
      NothingConserves(s);
    } else {
      var next := Visited(s, turns(k), size);
      VisitConserves(s, turns(k), size);
      PassConserves(next, turns, k + 1, n - 1, size);
      ConservesOn(s, next, Passed(s, turns, k, n, size), 1, n - 1);
    }
  }

  /** In particular, a pass visits exactly the completions that were there when it began, up to its count. */
  lemma PassVisitsInOrder(s: Loop, turns: nat -> Turn, k: nat, n: nat, size: nat)
    requires Fits(s, size) && n <= |s.pending|
    ensures var r := Passed(s, turns, k, n, size);
      && s.log <= r.log && Cqes(r.log[|s.log|..]) == s.pending[..n]
      && s.posted <= r.posted && r.pending == s.pending[n..] + r.posted[|s.posted|..]
  {
    PassConserves(s, turns, k, n, size);
    var r := Passed(s, turns, k, n, size);
    hide Passed;
    var seen, more := Cqes(r.log[|s.log|..]), r.posted[|s.posted|..];
    assert |seen| == n;
    var all := s.pending + more;
    assert seen == all[..n] == s.pending[..n];
    assert r.pending == all[n..] == s.pending[n..] + more;
  }

  /** The first iteration of a pass, and the rest of it. */
  lemma PassedNext(s: Loop, turns: nat -> Turn, k: nat, n: nat, size: nat)
    requires Fits(s, size) && 0 < n <= |s.pending|
    ensures |Visited(s, turns(k), size).pending| >= n - 1
    ensures Passed(s, turns, k, n, size) == Passed(Visited(s, turns(k), size), turns, k + 1, n - 1, size)
  {
    hide Visited;
    VisitConserves(s, turns(k), size);
  }

  // ---- Awaiters keep their cells ----

  lemma VisitKeepsAwaiter(s: Loop, turn: Turn, size: nat, at: nat)
    requires Fits(s, size) && s.pending != [] && at !in turn.writes
    ensures var r := Visited(s, turn, size);
      && |r.log| == |s.log| + 1 && r.log == s.log + [r.log[|s.log|]] && |r.pending| >= |s.pending| - 1
      && Cell(r.memory, at).coroutine == Cell(s.memory, at).coroutine
      && (r.log[|s.log|].cqe.data == at ==> r.log[|s.log|].coroutine == Cell(s.memory, at).coroutine)
  {
    hide Reread, Chosen, Fitting;
  }

  ghost predicate FindsAwaiter(log: seq<Visit>, from: nat, at: nat, coroutine: nat) {
    forall i :: from <= i < |log| && log[i].cqe.data == at ==> log[i].coroutine == coroutine
  }

  lemma FindsOneMore(log: seq<Visit>, before: seq<Visit>, v: Visit, at: nat, coroutine: nat)
    requires before + [v] <= log && FindsAwaiter(log, |before| + 1, at, coroutine)
    requires v.cqe.data == at ==> v.coroutine == coroutine
    ensures before <= log && FindsAwaiter(log, |before|, at, coroutine)
  {
    assert log[|before|] == (before + [v])[|before|];
  }

  /**
   Storing results never loses an awaiter: while no resumed coroutine writes to a cell, every visit of a completion
   with that cell finds the coroutine that was stored there, and it stays stored.
   */
  lemma {:induction false} AwaitersStay(s: Loop, turns: nat -> Turn, k: nat, n: nat, size: nat, at: nat)
    requires Fits(s, size) && n <= |s.pending| && forall j :: k <= j < k + n ==> at !in turns(j).writes
    ensures var r := Passed(s, turns, k, n, size);
      && s.log <= r.log && Cell(r.memory, at).coroutine == Cell(s.memory, at).coroutine
      && FindsAwaiter(r.log, |s.log|, at, Cell(s.memory, at).coroutine)
    decreases n
  {
    if n > 0 {
      assert at !in turns(k).writes;
      var next := Visited(s, turns(k), size);
      VisitKeepsAwaiter(s, turns(k), size, at);
      PassedNext(s, turns, k, n, size);
      hide *;
      AwaitersStay(next, turns, k + 1, n - 1, size, at);
      var r := Passed(s, turns, k, n, size);
      FindsOneMore(r.log, s.log, next.log[|s.log|], at, Cell(s.memory, at).coroutine);
    }
  }

  /**
   The test for a time-out reads the ring slot again, after its release. It reads the result that was visited
   exactly when the kernel has not come round to the slot: what it posted in between did not fill the ring, or
   the completion that did has the same result.
   */
  lemma TestReadsOwnExactly(s: Loop, turn: Turn, size: nat)
    requires Fits(s, size) && s.pending != []
    ensures var v := Visited(s, turn, size).log[|s.log|];
      v.reread == v.cqe.res <==>
        |s.pending| + |turn.early| <= size || turn.early[size - |s.pending|].res == s.pending[0].res
  {
    var rest := s.pending[1..];
    var b := Fitting(rest, turn.early, size);
    if |rest| + |turn.early| >= size {
      assert (rest + b)[size - 1] == b[size - |s.pending|];
    }
  }

  /**
   The loop body, field by field. The cell gets result and flags and keeps its coroutine; what the kernel posts behind
   the release goes to the tail as far as there is room. Without a coroutine nothing is resumed; with one, a slot that
   reads -62 destroys it, and any other has it resumed on the completion's own result; what it writes comes last.
   */
  lemma LoopBodyExactly(s: Loop, turn: Turn, size: nat)
    requires Fits(s, size) && s.pending != []
    ensures var (c, r, left) := (s.pending[0], Visited(s, turn, size), s.pending[1..]);
      var coroutine := if c.data in s.memory then s.memory[c.data].coroutine else 0;
      var early := if |left| + |turn.early| <= size then turn.early else turn.early[..size - |left|];
      var room := size - |left| - |early|;
      var late := if |turn.late| <= room then turn.late else turn.late[..room];
      && |r.log| == |s.log| + 1 && r.log[..|s.log|] == s.log
      && r.pending == left + early + late && r.posted == s.posted + early + late
      && var v := r.log[|s.log|];
         && v.cqe == c && v.coroutine == coroutine && v.count == |s.posted| + |early|
         && v.reread == (if room == 0 then early[|early| - 1].res else c.res)
         && (v.action.Skipped? <==> coroutine == 0)
         && (v.action.Destroyed? <==> coroutine != 0 && v.reread == -62)
         && (v.action.Resumed? <==> coroutine != 0 && v.reread != -62)
         && r.heard == s.heard + (if v.action.Resumed? then [Read(c.data, c.res, c.flags)] else [])
         && r.memory == s.memory[c.data := SqeData(coroutine, c.res, c.flags)]
                        + if coroutine == 0 then map[] else turn.writes
  {
    var left := s.pending[1..];
    var early := Fitting(left, turn.early, size);
    assert |left + early| == |left| + |early|;
    if |left| + |early| == size {
      assert (left + early)[size - 1] == early[|early| - 1];
    }
    var stored := Stored(s.memory, s.pending[0]);
    assert stored + map[] == stored;
  }

  // ---- Many passes ----

  /** A pass of the endless loop: completions arrive in `submit_and_wait`, then all that are there are visited. */
  function Round(s: Loop, arrived: seq<Cqe>, turns: nat -> Turn, size: nat): (r: Loop)
    requires Fits(s, size)
    ensures Fits(r, size)
  {
    var waited := Posting(s, arrived, size);
    Passed(waited, turns, 0, |waited.pending|, size)
  }

  /**
   A round visits exactly what is pending when its pass begins, what has just arrived included, one after the other,
   and leaves what was posted during the pass.
   */
  lemma RoundVisitsAll(s: Loop, arrived: seq<Cqe>, turns: nat -> Turn, size: nat)
    requires Fits(s, size)
    ensures var r := Round(s, arrived, turns, size);
      var there := s.pending + if |s.pending| + |arrived| <= size then arrived else arrived[..size - |s.pending|];
      && s.log <= r.log && Cqes(r.log[|s.log|..]) == there && |r.log| == |s.log| + |there|
      && |s.posted| + |there| - |s.pending| <= |r.posted|
      && r.pending == r.posted[|s.posted| + |there| - |s.pending|..]
  {
    var waited := Posting(s, arrived, size);
    PassVisitsInOrder(waited, turns, 0, |waited.pending|, size);
    hide Passed, Cqes;
    assert waited.pending[|waited.pending|..] == [];
  }

  datatype Episode = Episode(arrived: seq<Cqe>, turns: nat -> Turn)

  function Rounds(s: Loop, episodes: seq<Episode>, size: nat): (r: Loop)
    requires Fits(s, size)
    ensures Fits(r, size)
    decreases |episodes|
  {
    if episodes == [] then s
    else Rounds(Round(s, episodes[0].arrived, episodes[0].turns, size), episodes[1..], size)
  }

  /** One more episode is one more round. */
  lemma {:induction false} RoundsNext(s: Loop, episodes: seq<Episode>, e: Episode, size: nat)
    requires Fits(s, size)
    ensures Rounds(s, episodes + [e], size) == Round(Rounds(s, episodes, size), e.arrived, e.turns, size)
    decreases |episodes|
  {
    hide Round;
    if episodes == [] {
      assert [] + [e] == [e] && [e][1..] == [];
    } else {
      assert (episodes + [e])[1..] == episodes[1..] + [e];
      RoundsNext(Round(s, episodes[0].arrived, episodes[0].turns, size), episodes[1..], e, size);
    }
  }

  lemma PostingConserves(s: Loop, batch: seq<Cqe>, size: nat)
    requires Fits(s, size)
    ensures Conserves(s, Posting(s, batch, size), 0)
  {
    var b := Fitting(s.pending, batch, size);
    assert (s.posted + b)[|s.posted|..] == b;
    assert [] + (s.pending + b) == s.pending + b;
  }

  /** Over any run of the loop every posted completion is visited once, in the order of posting, or is pending. */
  lemma {:induction false} EveryCompletionOnce(s: Loop, episodes: seq<Episode>, size: nat)
    requires Fits(s, size)
    ensures exists visits :: Conserves(s, Rounds(s, episodes, size), visits)
    decreases |episodes|
  {
    if episodes == [] {
      NothingConserves(s);
      assert Conserves(s, Rounds(s, episodes, size), 0);
    } else {
      var e := episodes[0];
      var waited := Posting(s, e.arrived, size);
      var n := |waited.pending|;
      var next := Round(s, e.arrived, e.turns, size);
      PostingConserves(s, e.arrived, size);
      PassConserves(waited, e.turns, 0, n, size);
      EveryCompletionOnce(next, episodes[1..], size);
      assert Rounds(s, episodes, size) == Rounds(next, episodes[1..], size);
      var end := Rounds(next, episodes[1..], size);
      hide Conserves, Passed, Posting, Rounds;
      ConservesOn(s, waited, next, 0, n);
      var visits :| Conserves(next, end, visits);
      ConservesOn(s, next, end, 0 + n, visits);
    }
  }

  // ---- What the awaiters of a cell read ----

  function AsRead(c: Cqe): Read {
    Read(c.data, c.res, c.flags)
  }

  function AsReads(cs: seq<Cqe>): (r: seq<Read>)
    ensures |r| == |cs| && forall i :: 0 <= i < |cs| ==> r[i] == AsRead(cs[i])
  {
    seq(|cs|, i requires 0 <= i < |cs| => AsRead(cs[i]))
  }

  /** The reads of one cell. */
  function OfCell(rs: seq<Read>, at: nat): seq<Read> {
    if rs == [] then []
    else OfCell(rs[..|rs| - 1], at) + if rs[|rs| - 1].cell == at then [rs[|rs| - 1]] else []
  }

  /** The results of the completions whose coroutine was resumed. */
  function Resumptions(log: seq<Visit>): seq<Read> {
    if log == [] then []
    else Resumptions(log[..|log| - 1]) + if log[|log| - 1].action.Resumed? then [AsRead(log[|log| - 1].cqe)] else []
  }

  /** Whoever was resumed read the result of the completion it was resumed for. */
  ghost predicate ReadsOwn(s: Loop) {
    s.heard == Resumptions(s.log)
  }

  lemma ResumptionsNext(log: seq<Visit>, v: Visit)
    ensures Resumptions(log + [v]) == if v.action.Resumed? then Resumptions(log) + [AsRead(v.cqe)] else Resumptions(log)
  {
    assert (log + [v])[..|log|] == log;
    assert Resumptions(log) + [] == Resumptions(log);
  }

  lemma VisitReadsOwn(s: Loop, turn: Turn, size: nat)
    requires Fits(s, size) && s.pending != [] && ReadsOwn(s)
    ensures ReadsOwn(Visited(s, turn, size))
  {
    var r := Visited(s, turn, size);
    ResumptionsNext(s.log, r.log[|s.log|]);
    hide Reread, Resumptions;
  }

  lemma {:induction false} PassReadsOwn(s: Loop, turns: nat -> Turn, k: nat, n: nat, size: nat)
    requires Fits(s, size) && n <= |s.pending| && ReadsOwn(s)
    ensures ReadsOwn(Passed(s, turns, k, n, size))
    decreases n
  {
    hide ReadsOwn, Visited;
    if n > 0 {
      VisitReadsOwn(s, turns(k), size);
      VisitConserves(s, turns(k), size);
      PassReadsOwn(Visited(s, turns(k), size), turns, k + 1, n - 1, size);
    }
  }

  lemma {:induction false} RoundsReadOwn(s: Loop, episodes: seq<Episode>, size: nat)
    requires Fits(s, size) && ReadsOwn(s)
    ensures ReadsOwn(Rounds(s, episodes, size))
    decreases |episodes|
  {
    if episodes != [] {
      var e := episodes[0];
      var waited := Posting(s, e.arrived, size);
      assert ReadsOwn(waited);
      hide ReadsOwn, Passed;
      PassReadsOwn(waited, e.turns, 0, |waited.pending|, size);
      RoundsReadOwn(Round(s, e.arrived, e.turns, size), episodes[1..], size);
    }
  }

  lemma {:induction false} OfCellAppend(a: seq<Read>, b: seq<Read>, at: nat)
    ensures OfCell(a + b, at) == OfCell(a, at) + OfCell(b, at)
    decreases |b|
  {
    if b == [] {
      assert a + b == a && OfCell(a, at) + [] == OfCell(a, at);
    } else {
      var rest, last := b[..|b| - 1], b[|b| - 1];
      assert (a + b)[..|a + b| - 1] == a + rest;
      OfCellAppend(a, rest, at);
      var one := if last.cell == at then [last] else [];
      assert OfCell(a, at) + OfCell(rest, at) + one == OfCell(a, at) + (OfCell(rest, at) + one);
    }
  }

  /** Every visit of a completion with the cell resumed its awaiter. */
  ghost predicate AllResumed(log: seq<Visit>, at: nat) {
    forall i :: 0 <= i < |log| && log[i].cqe.data == at ==> log[i].action.Resumed?
  }

  /** A read is missing exactly where a visit resumed nobody. */
  lemma {:induction false} MissingExactly(log: seq<Visit>, at: nat)
    ensures var read, all := OfCell(Resumptions(log), at), OfCell(AsReads(Cqes(log)), at);
      |read| <= |all| && (read == all <==> AllResumed(log, at))
    decreases |log|
  {
    if log != [] {
      var rest, v := log[..|log| - 1], log[|log| - 1];
      MissingExactly(rest, at);
      assert log == rest + [v] && AsReads(Cqes(log)) == AsReads(Cqes(rest)) + [AsRead(v.cqe)];
      ResumptionsNext(rest, v);
      AllResumedNext(rest, v, at);
      hide Resumptions, AllResumed, AsRead;
      OfCellNext(AsReads(Cqes(rest)), AsRead(v.cqe), at);
      OfCellNext(Resumptions(rest), AsRead(v.cqe), at);
      SnocExactly(OfCell(Resumptions(rest), at), OfCell(AsReads(Cqes(rest)), at), AsRead(v.cqe));
      assert AsRead(v.cqe).cell == v.cqe.data by { CellOf(v.cqe); }
    }
  }

  lemma CellOf(c: Cqe)
    ensures AsRead(c).cell == c.data
  {
  }

  lemma OfCellNext(rs: seq<Read>, r: Read, at: nat)
    ensures OfCell(rs + [r], at) == if r.cell == at then OfCell(rs, at) + [r] else OfCell(rs, at)
  {
    assert (rs + [r])[..|rs|] == rs;
    assert OfCell(rs, at) + [] == OfCell(rs, at);
  }

  lemma AllResumedNext(log: seq<Visit>, v: Visit, at: nat)
    ensures AllResumed(log + [v], at) <==> AllResumed(log, at) && (v.cqe.data == at ==> v.action.Resumed?)
  {
    var all := log + [v];
    assert all[|log|] == v && forall i :: 0 <= i < |log| ==> log[i] == all[i];
  }

  /** A list that is not longer and lacks the last element is not equal. */
  lemma SnocExactly(x: seq<Read>, y: seq<Read>, r: Read)
    ensures x + [r] == y + [r] <==> x == y
    ensures |x| <= |y| ==> x != y + [r]
  {
    if x + [r] == y + [r] {
      assert x == (x + [r])[..|x|] == (y + [r])[..|y|];
    }
  }

  function Idle(m: Memory): Loop {
    Loop([], m, [], [], [])
  }

  /** From an empty ring, everything posted was visited, in order, or is pending. */
  lemma IdleConserves(m: Memory, episodes: seq<Episode>, size: nat)
    ensures var end := Rounds(Idle(m), episodes, size); Cqes(end.log) + end.pending == end.posted
  {
    EveryCompletionOnce(Idle(m), episodes, size);
    hide Rounds;
    var end := Rounds(Idle(m), episodes, size);
    assert end.log[0..] == end.log && end.posted[0..] == end.posted && [] + end.posted == end.posted;
  }

  lemma AsReadsAppend(a: seq<Cqe>, b: seq<Cqe>)
    ensures AsReads(a + b) == AsReads(a) + AsReads(b)
  {
  }

  lemma HeardExactly(s: Loop, at: nat)
    requires ReadsOwn(s) && Cqes(s.log) + s.pending == s.posted
    ensures (OfCell(s.heard, at) + OfCell(AsReads(s.pending), at) == OfCell(AsReads(s.posted), at))
            <==> AllResumed(s.log, at)
  {
    assert s.heard == Resumptions(s.log);
    hide *;
    MissingExactly(s.log, at);
    AsReadsAppend(Cqes(s.log), s.pending);
    OfCellAppend(AsReads(Cqes(s.log)), AsReads(s.pending), at);
    SameTail(OfCell(s.heard, at), OfCell(AsReads(Cqes(s.log)), at), OfCell(AsReads(s.pending), at));
  }

  /**
   Completions share cells: all those of one multishot request are copied into the same `sqe_data`. Still, over any
   run of the loop, whatever coroutines write and the kernel posts, the awaiters of a cell read one after the other
   the results of the completions posted for it, less those pending, exactly when each of its visits resumed one:
   none found a null coroutine, and none was taken for a time-out.
   */
  lemma AwaitersHearExactly(m: Memory, episodes: seq<Episode>, size: nat, at: nat)
    ensures var end := Rounds(Idle(m), episodes, size);
      (OfCell(end.heard, at) + OfCell(AsReads(end.pending), at) == OfCell(AsReads(end.posted), at))
      <==> AllResumed(end.log, at)
  {
    assert ReadsOwn(Idle(m));
    hide *;
    IdleConserves(m, episodes, size);
    RoundsReadOwn(Idle(m), episodes, size);
    HeardExactly(Rounds(Idle(m), episodes, size), at);
  }

  lemma SameTail(x: seq<Read>, y: seq<Read>, z: seq<Read>)
    ensures x + z == y + z <==> x == y
  {
    if x + z == y + z {
      assert |x| == |y|;
      assert x == (x + z)[..|x|] == (y + z)[..|y|];
    }
  }

  // ---- When every visit of a cell resumes ----

  /**
   What the slot of the `i`-th completion holds once `count` have been posted and it is released: its own result, or
   that of the one posted a whole ring behind it.
   */
  function SlotHolds(posted: seq<Cqe>, i: nat, count: nat, size: nat): int
    requires i < count <= |posted|
  {
    if i + size < count then posted[i + size].res else posted[i].res
  }

  /** The `i`-th visit is of the `i`-th completion, and destroys by what its slot holds. */
  ghost predicate VisitFits(posted: seq<Cqe>, v: Visit, i: nat, size: nat) {
    && i < v.count <= |posted| && v.cqe == posted[i]
    && v.reread == SlotHolds(posted, i, v.count, size) && v.action == Chosen(v.coroutine, v.reread)
  }

  ghost predicate Tracked(s: Loop, size: nat) {
    && |s.posted| == |s.log| + |s.pending|
    && (forall k :: 0 <= k < |s.pending| ==> s.pending[k] == s.posted[|s.log| + k])
    && (forall i :: 0 <= i < |s.log| ==> VisitFits(s.posted, s.log[i], i, size))
  }

  lemma PostingTracks(s: Loop, batch: seq<Cqe>, size: nat)
    requires Fits(s, size) && Tracked(s, size)
    ensures Tracked(Posting(s, batch, size), size)
  {
    var r := Posting(s, batch, size);
    forall i | 0 <= i < |r.log| ensures VisitFits(r.posted, r.log[i], i, size) {
      assert VisitFits(s.posted, s.log[i], i, size);
    }
  }

  lemma VisitTracks(s: Loop, turn: Turn, size: nat)
    requires Fits(s, size) && s.pending != [] && Tracked(s, size)
    ensures Tracked(Visited(s, turn, size), size)
  {
    var early := Visited(s, turn.(late := []), size);
    var b := Fitting(s.pending[1..], turn.early, size);
    var v := early.log[|s.log|];
    assert early.pending == s.pending[1..] + b && early.posted == s.posted + b && early.log == s.log + [v];
    assert v.count == |s.posted + b| && v.cqe == s.pending[0] && v.action == Chosen(v.coroutine, v.reread);
    assert v.reread == Reread(s.pending, turn.early, size);
    assert Visited(s, turn, size) == Posting(early, turn.late, size);
    hide Visited, Fitting, Stored, Cell, Chosen, Posting;
    EarlyTracks(s, b, v, early, size, turn);
    PostingTracks(early, turn.late, size);
  }

  lemma EarlyTracks(s: Loop, b: seq<Cqe>, v: Visit, r: Loop, size: nat, turn: Turn)
    requires Fits(s, size) && s.pending != [] && Tracked(s, size) && b == Fitting(s.pending[1..], turn.early, size)
    requires r.pending == s.pending[1..] + b && r.posted == s.posted + b && r.log == s.log + [v]
    requires v.count == |s.posted + b| && v.cqe == s.pending[0] && v.action == Chosen(v.coroutine, v.reread)
    requires v.reread == Reread(s.pending, turn.early, size)
    ensures Tracked(r, size)
  {
    forall i | 0 <= i < |r.log| ensures VisitFits(r.posted, r.log[i], i, size) {
      if i < |s.log| {
        assert VisitFits(s.posted, s.log[i], i, size);
      } else {
        assert r.pending == s.pending[1..] + b;
        assert |r.pending| == size ==> r.pending[size - 1] == r.posted[i + size];
      }
    }
  }

  lemma {:induction false} PassTracks(s: Loop, turns: nat -> Turn, k: nat, n: nat, size: nat)
    requires Fits(s, size) && n <= |s.pending| && Tracked(s, size)
    ensures Tracked(Passed(s, turns, k, n, size), size)
    decreases n
  {
    hide Tracked, Visited;
    if n > 0 {
      VisitTracks(s, turns(k), size);
      VisitConserves(s, turns(k), size);
      PassTracks(Visited(s, turns(k), size), turns, k + 1, n - 1, size);
    }
  }

  lemma {:induction false} RoundsTrack(s: Loop, episodes: seq<Episode>, size: nat)
    requires Fits(s, size) && Tracked(s, size)
    ensures Tracked(Rounds(s, episodes, size), size)
    decreases |episodes|
  {
    hide Tracked, Passed, Posting;
    if episodes != [] {
      var e := episodes[0];
      var waited := Posting(s, e.arrived, size);
      PostingTracks(s, e.arrived, size);
      PassTracks(waited, e.turns, 0, |waited.pending|, size);
      RoundsTrack(Round(s, e.arrived, e.turns, size), episodes[1..], size);
    }
  }

  /**
   Over any run of the loop, the visit of a completion destroys the coroutine in its cell exactly when there is one and
   the slot holds a time-out: its own, if the kernel has not come round the ring to it by then, or else that of the
   completion posted a whole ring behind it, whoever that was for.
   */
  lemma DestroyedExactly(m: Memory, episodes: seq<Episode>, size: nat, i: nat)
    requires i < |Rounds(Idle(m), episodes, size).log|
    ensures var end := Rounds(Idle(m), episodes, size);
      var v := end.log[i];
      && i < v.count <= |end.posted| && v.cqe == end.posted[i]
      && (v.action.Destroyed? <==> v.coroutine != NULL && SlotHolds(end.posted, i, v.count, size) == TIMED_OUT)
  {
    assert Tracked(Idle(m), size);
    RoundsTrack(Idle(m), episodes, size);
    hide Rounds;
    var end := Rounds(Idle(m), episodes, size);
    assert VisitFits(end.posted, end.log[i], i, size);
  }

  const ACCEPTED: Cqe := Cqe(8, 5, 2)
  const LATE: Cqe := Cqe(9, TIMED_OUT, 0)
  const ACCEPTING: Memory := map[8 := SqeData(7, 0, 0)]

  /** Two accepts have completed on a ring of two, and a time-out is posted while the first is visited. */
  function LateTurn(k: nat): Turn {
    Turn(if k == 0 then [LATE] else [], map[], [])
  }

  lemma FirstAcceptLapped() returns (next: Loop)
    ensures var waited := Posting(Idle(ACCEPTING), [ACCEPTED, ACCEPTED], 2);
      |waited.pending| == 2 && next == Visited(waited, LateTurn(0), 2)
    ensures next.log == [Visit(ACCEPTED, 7, Destroyed, TIMED_OUT, 3)] && |next.pending| > 0
  {
    var waited := Posting(Idle(ACCEPTING), [ACCEPTED, ACCEPTED], 2);
    assert [ACCEPTED, ACCEPTED][1..] == [ACCEPTED] && waited.pending == waited.posted == [ACCEPTED, ACCEPTED];
    next := Visited(waited, LateTurn(0), 2);
  }

  /** A run in which an accept completed, and a time-out that fills its slot has its coroutine destroyed. */
  lemma LappedSlotDestroys()
    ensures var end := Rounds(Idle(ACCEPTING), [Episode([ACCEPTED, ACCEPTED], LateTurn)], 2);
      |end.log| > 0 && end.log[0] == Visit(ACCEPTED, 7, Destroyed, TIMED_OUT, 3)
  {
    var next := FirstAcceptLapped();
    hide Visited, Posting, LateTurn, Passed, Rounds;
    PassConserves(next, LateTurn, 1, 1, 2);
    PassedNext(Posting(Idle(ACCEPTING), [ACCEPTED, ACCEPTED], 2), LateTurn, 0, 2, 2);
    OneRound(Idle(ACCEPTING), [ACCEPTED, ACCEPTED], LateTurn, 2);
    assert Passed(next, LateTurn, 1, 1, 2).log[0] == next.log[0];
  }

  lemma OneRound(s: Loop, arrived: seq<Cqe>, turns: nat -> Turn, size: nat)
    requires Fits(s, size)
    ensures var waited := Posting(s, arrived, size);
      Rounds(s, [Episode(arrived, turns)], size) == Passed(waited, turns, 0, |waited.pending|, size)
  {
    hide Posting, Passed;
    assert [Episode(arrived, turns)][1..] == [];
  }

  /** The cell has a coroutine, and its visits found one. */
  ghost predicate Kept(s: Loop, at: nat) {
    Cell(s.memory, at).coroutine != NULL &&
    forall i :: 0 <= i < |s.log| && s.log[i].cqe.data == at ==> s.log[i].coroutine != NULL
  }

  /** Nobody nulls the cell. */
  ghost predicate Keeps(turns: nat -> Turn, at: nat) {
    forall j: nat :: at in turns(j).writes ==> turns(j).writes[at].coroutine != NULL
  }

  lemma VisitKeeps(s: Loop, turn: Turn, size: nat, at: nat)
    requires Fits(s, size) && s.pending != [] && Kept(s, at)
    requires at in turn.writes ==> turn.writes[at].coroutine != NULL
    ensures Kept(Visited(s, turn, size), at)
  {
    hide Reread, Chosen, Fitting;
  }

  lemma {:induction false} PassKeeps(s: Loop, turns: nat -> Turn, k: nat, n: nat, size: nat, at: nat)
    requires Fits(s, size) && n <= |s.pending| && Kept(s, at) && Keeps(turns, at)
    ensures Kept(Passed(s, turns, k, n, size), at)
    decreases n
  {
    hide Kept, Visited;
    if n > 0 {
      VisitKeeps(s, turns(k), size, at);
      VisitConserves(s, turns(k), size);
      PassKeeps(Visited(s, turns(k), size), turns, k + 1, n - 1, size, at);
    }
  }

  lemma {:induction false} RoundsKeep(s: Loop, episodes: seq<Episode>, size: nat, at: nat)
    requires Fits(s, size) && Kept(s, at) && forall i :: 0 <= i < |episodes| ==> Keeps(episodes[i].turns, at)
    ensures Kept(Rounds(s, episodes, size), at)
    decreases |episodes|
  {
    if episodes != [] {
      var e := episodes[0];
      assert Keeps(e.turns, at);
      var waited := Posting(s, e.arrived, size);
      assert Kept(waited, at);
      hide Kept, Passed, Keeps;
      PassKeeps(waited, e.turns, 0, |waited.pending|, size, at);
      RoundsKeep(Round(s, e.arrived, e.turns, size), episodes[1..], size, at);
    }
  }

  /** The visit of the `i`-th completion finds no time-out in its slot. */
  ghost predicate Untimed(s: Loop, i: nat, size: nat)
    requires i < |s.log|
  {
    i < s.log[i].count <= |s.posted| ==> SlotHolds(s.posted, i, s.log[i].count, size) != TIMED_OUT
  }

  /**
   So where the cell has a coroutine that nobody nulls, as with the accept request, each posted result is read once, in
   order, or its completion is pending, exactly when no visit of the cell finds a time-out in its slot.
   */
  lemma SharedCellHearsExactly(m: Memory, episodes: seq<Episode>, size: nat, at: nat)
    requires Cell(m, at).coroutine != NULL && forall i :: 0 <= i < |episodes| ==> Keeps(episodes[i].turns, at)
    ensures var end := Rounds(Idle(m), episodes, size);
      (OfCell(end.heard, at) + OfCell(AsReads(end.pending), at) == OfCell(AsReads(end.posted), at))
      <==> forall i :: 0 <= i < |end.log| && end.log[i].cqe.data == at ==> Untimed(end, i, size)
  {
    assert Tracked(Idle(m), size) && Kept(Idle(m), at);
    RoundsTrack(Idle(m), episodes, size);
    RoundsKeep(Idle(m), episodes, size, at);
    AwaitersHearExactly(m, episodes, size, at);
    hide Rounds, OfCell;
    var end := Rounds(Idle(m), episodes, size);
    forall i | 0 <= i < |end.log| && end.log[i].cqe.data == at
      ensures end.log[i].action.Resumed? <==> Untimed(end, i, size)
    {
      assert VisitFits(end.posted, end.log[i], i, size);
    }
  }

  /** In particular when no completion of the cell, and none posted a whole ring behind one, is a time-out. */
  lemma SharedCellHearsAll(m: Memory, episodes: seq<Episode>, size: nat, at: nat)
    requires Cell(m, at).coroutine != NULL && forall i :: 0 <= i < |episodes| ==> Keeps(episodes[i].turns, at)
    requires var posted := Rounds(Idle(m), episodes, size).posted;
      forall i :: 0 <= i < |posted| && posted[i].data == at ==>
        posted[i].res != TIMED_OUT && (i + size < |posted| ==> posted[i + size].res != TIMED_OUT)
    ensures var end := Rounds(Idle(m), episodes, size);
      OfCell(end.heard, at) + OfCell(AsReads(end.pending), at) == OfCell(AsReads(end.posted), at)
  {
    assert Tracked(Idle(m), size);
    RoundsTrack(Idle(m), episodes, size);
    SharedCellHearsExactly(m, episodes, size, at);
    hide Rounds, OfCell;
    var end := Rounds(Idle(m), episodes, size);
    forall i | 0 <= i < |end.log| && end.log[i].cqe.data == at ensures Untimed(end, i, size) {
      assert VisitFits(end.posted, end.log[i], i, size);
    }
  }
}
