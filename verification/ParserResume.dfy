/**
 Feeding the incremental parser a growing buffer piece by piece, over any well-formed tables.

 However the buffer is cut, the parser ends as one call on the whole buffer would leave it; only the count of
 trailing bytes handed to `header_done` depends on how much had arrived. No assertion of the driver fails.
 */
module ParserResume {
  import opened TableSearch
  import opened ParserEngine

  /** Registers without the one field that the length of the buffer shows in. */
  function Settled(g: Regs): Regs {
    g.(trailing := 0)
  }

  // ---- A run on a prefix is the beginning of the run on the whole ----

  lemma {:induction false} ActsSettle(g: Regs, codes: seq<nat>, i: nat, p: nat, pe: nat, pe': nat)
    requires i <= |codes|
    ensures var a, b := Acts(g, codes, i, p, pe), Acts(g, codes, i, p, pe');
      Settled(a.0) == Settled(b.0) && a.1 == b.1 && (!a.1 ==> a.0 == b.0)
    decreases |codes| - i
  {
    if i < |codes| && codes[i] != DONE {
      ActsSettle(Act(g, codes[i], p), codes, i + 1, p, pe, pe');
    }
  }

  lemma {:induction false} RunPrefix(t: Tables, relaxed: bool, cs: nat, g: Regs, buf: string, n: nat, p: nat)
    requires WellFormed(t) && cs < States(t) && p <= n <= |buf|
    ensures var r, whole := Run(t, relaxed, cs, g, buf[..n], p), Run(t, relaxed, cs, g, buf, p);
      if r.done || r.cs == ERROR then
        r.cs == whole.cs && Settled(r.regs) == Settled(whole.regs) && r.p == whole.p && r.done == whole.done
      else
        r.p == n && whole == Run(t, relaxed, r.cs, r.regs, buf, n)
    decreases n - p
  {
    if p < n && cs != ERROR {
      RunStep(t, relaxed, cs, g, buf[..n], p);
      RunStep(t, relaxed, cs, g, buf, p);
      hide Run, Acts, Taken, WellFormed;
      var e := Taken(t, relaxed, cs, buf[p]);
      ActsSettle(g, e.actions, 0, p, n, |buf|);
      var (next, done) := Acts(g, e.actions, 0, p, n);
      if !done && e.target != ERROR {
        RunPrefix(t, relaxed, e.target, next, buf, n, p + 1);
      }
    }
  }

  lemma {:induction false} DiesInside(t: Tables, relaxed: bool, cs: nat, g: Regs, buf: string, p: nat)
    requires WellFormed(t) && cs < States(t) && p <= |buf| && cs != ERROR
    ensures var r := Run(t, relaxed, cs, g, buf, p); r.cs == ERROR && !r.done ==> r.p < |buf|
    decreases |buf| - p
  {
    hide Taken, Acts, WellFormed;
    if p < |buf| {
      var e := Taken(t, relaxed, cs, buf[p]);
      var r := Acts(g, e.actions, 0, p, |buf|);
      if !r.1 && e.target != ERROR {
        DiesInside(t, relaxed, e.target, r.0, buf, p + 1);
      }
    }
  }

  /** A run that ends in error stops at the byte that brings it there: without it the run lives, with it it dies. */
  lemma DeadByte(t: Tables, relaxed: bool, cs: nat, g: Regs, buf: string, p: nat)
    requires WellFormed(t) && cs < States(t) && p <= |buf| && cs != ERROR
    requires var r := Run(t, relaxed, cs, g, buf, p); r.cs == ERROR && !r.done
    ensures var r := Run(t, relaxed, cs, g, buf, p);
      && p <= r.p < |buf|
      && (var alive := Run(t, relaxed, cs, g, buf[..r.p], p); alive.cs != ERROR && !alive.done && alive.p == r.p)
      && (var dead := Run(t, relaxed, cs, g, buf[..r.p + 1], p); dead.cs == ERROR && !dead.done && dead.p == r.p)
  {
    var at := Run(t, relaxed, cs, g, buf, p).p;
    DiesInside(t, relaxed, cs, g, buf, p);
    DiesInside(t, relaxed, cs, g, buf[..at], p);
    RunPrefix(t, relaxed, cs, g, buf, at, p);
    RunPrefix(t, relaxed, cs, g, buf, at + 1, p);
    hide Run, WellFormed;
  }

  // ---- Bounds ----

  /** Every position the parser holds lies below what it has seen, so the assertions hold and slices fit. */
  ghost predicate Bounded(g: Regs, p: nat) {
    && (g.mark < p || g.mark == 0) && (g.fieldStart < p || g.fieldStart == 0)
    && 0 <= g.fieldLen <= p && g.bodyStart <= p
  }

  lemma {:induction false} ActsBounded(g: Regs, codes: seq<nat>, i: nat, p: nat, pe: nat)
    requires i <= |codes| && Bounded(g, p + 1)
    ensures Bounded(Acts(g, codes, i, p, pe).0, p + 1)
    decreases |codes| - i
  {
    if i < |codes| && codes[i] != DONE {
      ActsBounded(Act(g, codes[i], p), codes, i + 1, p, pe);
    }
  }

  lemma {:induction false} RunBounded(t: Tables, relaxed: bool, cs: nat, g: Regs, buf: string, p: nat)
    requires WellFormed(t) && cs < States(t) && p <= |buf| && Bounded(g, p)
    ensures var r := Run(t, relaxed, cs, g, buf, p);
      && Bounded(r.regs, |buf|)
      && (r.cs != ERROR && !r.done ==> r.p == |buf|)
    decreases |buf| - p
  {
    if p < |buf| && cs != ERROR {
      var e := Taken(t, relaxed, cs, buf[p]);
      ActsBounded(g, e.actions, 0, p, |buf|);
      var (next, done) := Acts(g, e.actions, 0, p, |buf|);
      if !done && e.target != ERROR {
        RunBounded(t, relaxed, e.target, next, buf, p + 1);
      }
    }
  }

  // ---- Done ----

  /**
   What done leaves at the byte before `p`: for the socket formats a body from the mark to that byte, else a body
   behind it, announced last, with the bytes still in the buffer.
   */
  ghost predicate Closed(g: Regs, p: nat, pe: nat) {
    if g.xmlSent || g.jsonSent then
      g.bodyStart == g.mark && g.bodyStart + g.contentLen == p
    else
      && g.bodyStart == p && g.bodyStart + g.trailing == pe
      && g.calls != [] && g.calls[|g.calls| - 1] == HeaderDone(p)
  }

  lemma {:induction false} ActsClose(g: Regs, codes: seq<nat>, i: nat, p: nat, pe: nat)
    requires i <= |codes|
    ensures Acts(g, codes, i, p, pe).1 ==> Closed(Acts(g, codes, i, p, pe).0, p + 1, pe)
    decreases |codes| - i
  {
    if i < |codes| && codes[i] != DONE {
      ActsClose(Act(g, codes[i], p), codes, i + 1, p, pe);
    }
  }

  /** A run that reaches done accounts for every byte of the buffer: what it read, and what it leaves behind. */
  lemma {:induction false} DoneAccounts(t: Tables, relaxed: bool, cs: nat, g: Regs, buf: string, p: nat)
    requires WellFormed(t) && cs < States(t) && p <= |buf| && Run(t, relaxed, cs, g, buf, p).done
    ensures var r := Run(t, relaxed, cs, g, buf, p); Closed(r.regs, r.p, |buf|)
    decreases |buf| - p
  {
    if p < |buf| && cs != ERROR {
      RunStep(t, relaxed, cs, g, buf, p);
      var e := Taken(t, relaxed, cs, buf[p]);
      ActsClose(g, e.actions, 0, p, |buf|);
      var (next, done) := Acts(g, e.actions, 0, p, |buf|);
      if !done && e.target != ERROR {
        hide Acts, Closed, Taken, WellFormed;
        DoneAccounts(t, relaxed, e.target, next, buf, p + 1);
      }
    }
  }

  /** A parser between two calls on a growing buffer of which it has been given `n` bytes. */
  ghost predicate Between(t: Tables, m: Machine, n: nat) {
    && WellFormed(t) && m.cs < States(t)
    && Bounded(m.regs, n) && 0 <= m.nread <= n
    && (m.cs != ERROR ==> m.nread == n)
  }

  // ---- Feeding ----

  /** Lengths at which the buffer is handed over: they grow, and end with the whole buffer. */
  ghost predicate Cuts(buf: string, cuts: seq<nat>, from: nat) {
    && |cuts| > 0 && from <= cuts[0] && cuts[|cuts| - 1] == |buf|
    && forall i, j :: 0 <= i <= j < |cuts| ==> cuts[i] <= cuts[j]
  }

  /** Calls `http_parser_execute` on each prefix in turn, from the offset reached, and not after done. */
  ghost function Feed(t: Tables, relaxed: bool, m: Machine, buf: string, cuts: seq<nat>): (o: Outcome)
    requires WellFormed(t) && m.cs < States(t) && |cuts| > 0
    requires forall i :: 0 <= i < |cuts| ==> cuts[i] <= |buf|
    decreases |cuts|
  {
    var o := Executed(t, relaxed, m, buf[..cuts[0]], if m.nread < 0 then 0 else m.nread);
    if |cuts| == 1 || o.done || !o.ok then o else Feed(t, relaxed, o.m, buf, cuts[1..])
  }

  /** One call keeps the parser between calls, and none of its assertions fails. */
  lemma ExecuteStays(t: Tables, relaxed: bool, m: Machine, buf: string, n: nat)
    requires Between(t, m, n) && n <= |buf|
    ensures var o := Executed(t, relaxed, m, buf, m.nread);
      o.ok && Bounded(o.m.regs, |buf|) && 0 <= o.m.nread <= |buf| && (!o.done ==> Between(t, o.m, |buf|))
  {
    if |buf| > 0 && m.cs != ERROR {
      RunBounded(t, relaxed, m.cs, m.regs, buf, m.nread);
    }
  }

  /** Once in error the parser stays as it is, whatever it is given. */
  lemma ErrorAbsorbs(t: Tables, relaxed: bool, m: Machine, buf: string, off: nat)
    requires WellFormed(t) && States(t) > 0 && m.cs == ERROR
    ensures var o := Executed(t, relaxed, m, buf, off); o.m == m && !o.done
  {
  }

  /**
   Resumability: over any cuts of the buffer, feeding ends with the same fields and the same callbacks as one
   call on the whole, up to the trailing count, the last call returns what that one call returns, and on the way no
   assertion of the driver fails.
   */
  lemma {:induction false} FeedIsOneCall(t: Tables, relaxed: bool, m: Machine, n: nat, buf: string, cuts: seq<nat>)
    requires Between(t, m, n) && Cuts(buf, cuts, n)
    ensures var fed, once := Feed(t, relaxed, m, buf, cuts), Executed(t, relaxed, m, buf, m.nread);
      && fed.ok && once.ok && fed.done == once.done
      && fed.result == once.result
      && fed.m.cs == once.m.cs && fed.m.nread == once.m.nread && Settled(fed.m.regs) == Settled(once.m.regs)
    decreases |cuts|
  {
    var part := buf[..cuts[0]];
    assert cuts[0] <= cuts[|cuts| - 1];
    ExecuteStays(t, relaxed, m, part, n);
    ExecuteStays(t, relaxed, m, buf, n);
    var o := Executed(t, relaxed, m, part, m.nread);
    if |cuts| == 1 {
      assert part == buf;
    } else if m.cs == ERROR {
      FeedIsOneCall(t, relaxed, o.m, |part|, buf, cuts[1..]);
    } else {
      RunPrefix(t, relaxed, m.cs, m.regs, buf, |part|, n);
      if !o.done {
        FeedIsOneCall(t, relaxed, o.m, |part|, buf, cuts[1..]);
      }
    }
  }
}
