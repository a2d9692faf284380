/**
 What a whole run of a fresh parser on a request amounts to: the order of its callbacks, where their slices
 lie, what `http_parser_finish` says, and that the uninitialised `query_start` never shows.
 */
module RequestTheorems {
  import opened Prelude
  import opened TableSearch
  import opened ParserEngine
  import opened ParserResume
  import opened RequestTable
  import opened RequestText
  import opened RequestRuns

  function FreshRun(t: Tables, relaxed: bool, garbage: nat, buf: string): Ran
    requires IsRequestTable(t)
  {
    Run(t, relaxed, START, Initial(garbage).regs, buf, 0)
  }

  // ---- Order ----

  const FIELD: nat := WRITE_VALUE

  function KindOf(c: Call): nat {
    match c
    case Element(kind, _, _) => kind
    case Field(_, _, _, _) => FIELD
    case HeaderDone(_) => DONE
  }

  function Kinds(calls: seq<Call>): (r: seq<nat>)
    ensures |r| == |calls|
  {
    seq(|calls|, i requires 0 <= i < |calls| => KindOf(calls[i]))
  }

  /** Method, path, at most one query, URI, at most one fragment, version, any number of fields, done. */
  function Grammar(query: bool, fragment: bool, fields: nat): seq<nat> {
    [METHOD, PATH] + Optional(query, QUERY) + [URI] + Optional(fragment, FRAGMENT) + [VERSION]
    + seq(fields, _ => FIELD) + [DONE]
  }

  ghost predicate InOrder(kinds: seq<nat>) {
    exists query, fragment, fields :: kinds == Grammar(query, fragment, fields)
  }

  function Optional(b: bool, kind: nat): seq<nat> {
    if b then [kind] else []
  }

  lemma KindsAppend(a: seq<Call>, b: seq<Call>)
    ensures Kinds(a + b) == Kinds(a) + Kinds(b)
  {
  }

  lemma {:induction false} PartKinds(parts: seq<Part>)
    ensures Kinds(PartCalls(parts)) == seq(|parts|, _ => FIELD)
  {
    assert forall k :: 0 <= k < |parts| ==> KindOf(PartCalls(parts)[k]) == KindOf(PartCall(parts[k])) == FIELD;
  }

  lemma HeadKinds(h: Head)
    ensures Kinds(HeadCalls(h)) ==
            [METHOD, PATH] + Optional(h.query.Some?, QUERY) + [URI] + Optional(h.fragment.Some?, FRAGMENT) + [VERSION]
  {
    KindsAppend(TargetCalls(h), [Element(VERSION, TargetEnd(h) + 1, VERSION_LEN)]);
  }

  /** A run that reaches the final state of a request has made its callbacks in the order of the grammar. */
  lemma CallbackOrder(t: Tables, relaxed: bool, garbage: nat, buf: string)
    requires IsRequestTable(t) && Bytes(buf)
    requires FreshRun(t, relaxed, garbage, buf).cs == FIRST_FINAL
    ensures InOrder(Kinds(FreshRun(t, relaxed, garbage, buf).regs.calls))
  {
    hide HeadText, PartsText, HeadCalls, IsRequestTable;
    FreshRunStands(t, relaxed, garbage, buf);
    var r := FreshRun(t, relaxed, garbage, buf);
    var v :| Completed(r.regs, buf, r.p, v, relaxed);
    HeadKinds(v.head);
    PartKinds(v.parts);
    KindsAppend(HeadCalls(v.head) + PartCalls(v.parts), [HeaderDone(r.p)]);
    KindsAppend(HeadCalls(v.head), PartCalls(v.parts));
    assert Kinds([HeaderDone(r.p)]) == [DONE];
    assert Kinds(r.regs.calls) == Grammar(v.head.query.Some?, v.head.fragment.Some?, |v.parts|);
  }

  /**
   Accounting: a finished request is its method, a space, the URI (with its path and query inside), the
   fragment, a space, the version and the header lines, byte for byte, and the body starts behind them.
   */
  lemma FinishedRequestIsItsParts(t: Tables, relaxed: bool, garbage: nat, buf: string) returns (v: View)
    requires IsRequestTable(t) && Bytes(buf)
    requires FreshRun(t, relaxed, garbage, buf).cs == FIRST_FINAL
    ensures var r := FreshRun(t, relaxed, garbage, buf);
      && HeadText(buf, v.head, relaxed) && PartsText(buf, VersionEnd(v.head), v.parts)
      && r.regs.calls == HeadCalls(v.head) + PartCalls(v.parts) + [HeaderDone(r.p)] && r.regs.bodyStart == r.p
      && exists line :: LineBreak(buf, PartsEnd(VersionEnd(v.head), v.parts), line) && LineBreak(buf, line, r.p)
  {
    FreshRunStands(t, relaxed, garbage, buf);
    var r := FreshRun(t, relaxed, garbage, buf);
    v :| Completed(r.regs, buf, r.p, v, relaxed);
  }

  // ---- Outcome ----

  /** `http_parser_finish` after a run: 1 exactly at done, -1 exactly at a byte with no transition, else 0. */
  lemma FinishTellsOutcome(t: Tables, relaxed: bool, garbage: nat, buf: string)
    requires IsRequestTable(t) && Bytes(buf)
    ensures var r := FreshRun(t, relaxed, garbage, buf);
      && (FinishCode(r.cs) == 1 <==> r.done)
      && (FinishCode(r.cs) == -1 <==> !r.done && r.p < |buf|)
      && (FinishCode(r.cs) == 0 <==> !r.done && r.p == |buf|)
  {
    hide Completed, SocketHolds, Alive, IsRequestTable;
    FreshRunStands(t, relaxed, garbage, buf);
  }

  // ---- Slices ----

  ghost predicate Inside(c: Call, n: nat) {
    match c
    case Element(_, start, len) => 0 <= len && start + len <= n
    case Field(nameStart, nameLen, valueStart, valueLen) =>
      0 < nameLen && nameStart + nameLen < valueStart && 0 <= valueLen && valueStart + valueLen <= n
    case HeaderDone(at) => at <= n
  }

  ghost predicate AllInside(calls: seq<Call>, n: nat) {
    forall k :: 0 <= k < |calls| ==> Inside(calls[k], n)
  }

  lemma {:induction false} PartsInside(buf: string, from: nat, parts: seq<Part>)
    requires PartsText(buf, from, parts)
    ensures forall k :: 0 <= k < |parts| ==> Inside(PartCall(parts[k]), PartsEnd(from, parts))
    ensures from <= PartsEnd(from, parts)
    decreases |parts|
  {
    if parts != [] {
      PartsInside(buf, from, parts[..|parts| - 1]);
    }
  }

  lemma HeadInside(h: Head)
    requires h.methodLen < h.uriStart
    ensures AllInside(HeadCalls(h), VersionEnd(h)) && AllInside(TargetCalls(h), TargetEnd(h))
    ensures AllInside(UriCalls(h), UriEnd(h)) && AllInside(PathCalls(h), PathEnd(h))
  {
  }

  lemma HoldsInside(cs: nat, g: Regs, buf: string, p: nat, v: View, relaxed: bool)
    requires Alive(cs, g, buf, p, v, relaxed)
    ensures AllInside(g.calls, p)
  {
    if HeaderState(cs) {
      HeadersInside(cs, g, buf, p, v, relaxed);
    } else {
      hide MethodText, SchemeText, Without;
      if v.head.methodLen < v.head.uriStart {
        HeadInside(v.head);
      }
    }
  }

  lemma HeadersInside(cs: nat, g: Regs, buf: string, p: nat, v: View, relaxed: bool)
    requires HeaderState(cs) && p <= |buf| && HeadText(buf, v.head, relaxed)
    requires InHeaders(cs, g, buf, p, HeadCalls(v.head), VersionEnd(v.head), v.parts)
    ensures AllInside(g.calls, p)
  {
    assert v.head.methodLen < v.head.uriStart;
    hide HeadText, HeadCalls, PartsText, NameText, Blanks, ValueText;
    HeadInside(v.head);
    PartsInside(buf, VersionEnd(v.head), v.parts);
  }

  /**
   Every slice handed to a callback, in any run, finished or not, lies in the buffer; a header's name ends
   strictly before its value begins.
   */
  lemma SlicesInside(t: Tables, relaxed: bool, garbage: nat, buf: string)
    requires IsRequestTable(t) && Bytes(buf)
    ensures AllInside(FreshRun(t, relaxed, garbage, buf).regs.calls, |buf|)
    ensures var calls := FreshRun(t, relaxed, garbage, buf).regs.calls;
      forall k :: 0 <= k < |calls| ==> Inside(calls[k], |buf|)
  {
    hide IsRequestTable, HeadText, Holds;
    FreshRunStands(t, relaxed, garbage, buf);
    var r := FreshRun(t, relaxed, garbage, buf);
    if r.done && r.cs == FIRST_FINAL {
      var v :| Completed(r.regs, buf, r.p, v, relaxed);
      CompletedInside(r.regs, buf, r.p, v, relaxed);
    } else if !r.done {
      var cs, v :| (r.cs == cs || r.cs == ERROR) && Alive(cs, r.regs, buf, r.p, v, relaxed);
      HoldsInside(cs, r.regs, buf, r.p, v, relaxed);
    }
  }

  lemma CompletedInside(g: Regs, buf: string, p: nat, v: View, relaxed: bool)
    requires Completed(g, buf, p, v, relaxed)
    ensures AllInside(g.calls, p)
  {
    hide MethodText, SchemeText, Without, PartText, NameText, HeadCalls;
    assert v.head.methodLen < v.head.uriStart;
    HeadInside(v.head);
    PartsInside(buf, VersionEnd(v.head), v.parts);
  }

  // ---- Fed piece by piece ----

  lemma FreshIsBetween(t: Tables, garbage: nat)
    requires IsRequestTable(t)
    ensures Between(t, Initial(garbage), 0)
  {
  }

  /** Feeding a fresh parser piece by piece ends as one run on the whole buffer does. */
  lemma FedIsFreshRun(t: Tables, relaxed: bool, garbage: nat, buf: string, cuts: seq<nat>)
    requires IsRequestTable(t) && Cuts(buf, cuts, 0)
    ensures forall i :: 0 <= i < |cuts| ==> cuts[i] <= |buf|
    ensures var fed, r := Feed(t, relaxed, Initial(garbage), buf, cuts), FreshRun(t, relaxed, garbage, buf);
      && fed.ok && fed.done == r.done && fed.m.cs == r.cs && fed.m.nread == r.p && fed.result == r.p
      && fed.m.regs.calls == r.regs.calls && fed.m.regs.bodyStart == r.regs.bodyStart
  {
    FreshIsBetween(t, garbage);
    FeedIsOneCall(t, relaxed, Initial(garbage), 0, buf, cuts);
    hide Feed, IsRequestTable, WellFormed;
    assert Settled(Feed(t, relaxed, Initial(garbage), buf, cuts).m.regs).calls
        == Settled(FreshRun(t, relaxed, garbage, buf).regs).calls;
  }

  /** The registers of the last call are those of one run, but for the trailing count. */
  lemma FedRegisters(t: Tables, relaxed: bool, garbage: nat, buf: string, cuts: seq<nat>)
    requires IsRequestTable(t) && Cuts(buf, cuts, 0)
    ensures forall i :: 0 <= i < |cuts| ==> cuts[i] <= |buf|
    ensures Settled(Feed(t, relaxed, Initial(garbage), buf, cuts).m.regs)
         == Settled(FreshRun(t, relaxed, garbage, buf).regs)
  {
    FreshIsBetween(t, garbage);
    FeedIsOneCall(t, relaxed, Initial(garbage), 0, buf, cuts);
    hide Feed, IsRequestTable, WellFormed;
  }

  lemma ReturnsBody(g: Regs, p: nat, pe: nat, h: Regs)
    requires Closed(g, p, pe) && Settled(g) == Settled(h)
    ensures if h.xmlSent || h.jsonSent then h.bodyStart + h.contentLen == p else h.bodyStart == p
  {
    assert Settled(g).bodyStart == Settled(h).bodyStart && Settled(g).mark == Settled(h).mark;
    assert Settled(g).contentLen == Settled(h).contentLen && Settled(g).xmlSent == Settled(h).xmlSent;
    assert Settled(g).jsonSent == Settled(h).jsonSent;
  }

  /**
   What the last call returns, however the buffer was cut: at done the place behind the head, or behind the text of a
   socket message; at the end of the buffer its length; in error the place of the byte that killed the run, the first
   such that the bytes up to it end in error.
   */
  lemma FedReturns(t: Tables, relaxed: bool, garbage: nat, buf: string, cuts: seq<nat>)
    requires IsRequestTable(t) && Bytes(buf) && Cuts(buf, cuts, 0)
    ensures forall i :: 0 <= i < |cuts| ==> cuts[i] <= |buf|
    ensures var fed := Feed(t, relaxed, Initial(garbage), buf, cuts);
      var (code, g) := (FinishCode(fed.m.cs), fed.m.regs);
      && 0 <= fed.result <= |buf|
      && (code == 1 ==> if g.xmlSent || g.jsonSent then g.bodyStart + g.contentLen == fed.result
                        else g.bodyStart == fed.result)
      && (fed.m.cs == 348 ==> g.bodyStart == fed.result)
      && (code == 0 ==> fed.result == |buf|)
      && (code == -1 ==>
            && fed.result < |buf| && FreshRun(t, relaxed, garbage, buf[..fed.result]).cs != 0
            && FreshRun(t, relaxed, garbage, buf[..fed.result + 1]).cs == 0)
  {
    FedIsFreshRun(t, relaxed, garbage, buf, cuts);
    FedRegisters(t, relaxed, garbage, buf, cuts);
    FinishTellsOutcome(t, relaxed, garbage, buf);
    FreshReturns(t, relaxed, garbage, buf);
    hide Feed, FreshRun, IsRequestTable, Settled, Closed;
    var fed, r := Feed(t, relaxed, Initial(garbage), buf, cuts), FreshRun(t, relaxed, garbage, buf);
    if r.done {
      ReturnsBody(r.regs, r.p, |buf|, fed.m.regs);
    }
  }

  lemma FreshReturns(t: Tables, relaxed: bool, garbage: nat, buf: string)
    requires IsRequestTable(t) && Bytes(buf)
    ensures var r := FreshRun(t, relaxed, garbage, buf);
      && (r.done ==> Closed(r.regs, r.p, |buf|)) && (r.cs == 348 ==> r.regs.bodyStart == r.p)
      && (r.cs == 0 && !r.done ==>
            && r.p < |buf| && FreshRun(t, relaxed, garbage, buf[..r.p]).cs != 0
            && FreshRun(t, relaxed, garbage, buf[..r.p + 1]).cs == 0)
  {
    var r := FreshRun(t, relaxed, garbage, buf);
    hide *;
    if r.cs == FIRST_FINAL {
      var v := FinishedRequestIsItsParts(t, relaxed, garbage, buf);
    }
    if r.done {
      FreshCloses(t, relaxed, garbage, buf);
    } else if r.cs == 0 {
      FreshDead(t, relaxed, garbage, buf);
    }
  }

  lemma FreshIsRun(t: Tables, relaxed: bool, garbage: nat, buf: string)
    requires IsRequestTable(t)
    ensures WellFormed(t) && START < States(t) && START != ERROR && ERROR == 0
    ensures FreshRun(t, relaxed, garbage, buf) == Run(t, relaxed, START, Initial(garbage).regs, buf, 0)
  {
    hide Run;
  }

  lemma FreshDead(t: Tables, relaxed: bool, garbage: nat, buf: string)
    requires IsRequestTable(t)
    requires var r := FreshRun(t, relaxed, garbage, buf); r.cs == 0 && !r.done
    ensures var r := FreshRun(t, relaxed, garbage, buf);
      && r.p < |buf| && FreshRun(t, relaxed, garbage, buf[..r.p]).cs != 0
      && FreshRun(t, relaxed, garbage, buf[..r.p + 1]).cs == 0
  {
    hide *;
    FreshIsRun(t, relaxed, garbage, buf);
    DeadByte(t, relaxed, START, Initial(garbage).regs, buf, 0);
    var p := FreshRun(t, relaxed, garbage, buf).p;
    FreshIsRun(t, relaxed, garbage, buf[..p]);
    FreshIsRun(t, relaxed, garbage, buf[..p + 1]);
  }

  lemma FreshCloses(t: Tables, relaxed: bool, garbage: nat, buf: string)
    requires IsRequestTable(t) && FreshRun(t, relaxed, garbage, buf).done
    ensures var r := FreshRun(t, relaxed, garbage, buf); Closed(r.regs, r.p, |buf|)
  {
    hide *;
    FreshIsRun(t, relaxed, garbage, buf);
    DoneAccounts(t, relaxed, START, Initial(garbage).regs, buf, 0);
  }

  /**
   However a request arrives: no assertion of the driver fails, every slice lies in the buffer, a finished request's
   callbacks are in order, and the finish code tells done, a dead byte and an unfinished buffer apart.
   */
  lemma FedRequests(t: Tables, relaxed: bool, garbage: nat, buf: string, cuts: seq<nat>)
    requires IsRequestTable(t) && Bytes(buf) && Cuts(buf, cuts, 0)
    ensures forall i :: 0 <= i < |cuts| ==> cuts[i] <= |buf|
    ensures var fed := Feed(t, relaxed, Initial(garbage), buf, cuts);
      && fed.ok && AllInside(fed.m.regs.calls, |buf|)
      && (fed.m.cs == FIRST_FINAL ==> InOrder(Kinds(fed.m.regs.calls)))
      && (FinishCode(fed.m.cs) == 1 <==> fed.done)
      && (FinishCode(fed.m.cs) == -1 <==> !fed.done && fed.m.nread < |buf|)
      && (FinishCode(fed.m.cs) == 0 <==> !fed.done && fed.m.nread == |buf|)
  {
    FedIsFreshRun(t, relaxed, garbage, buf, cuts);
    hide Feed, FreshRun, IsRequestTable, InOrder, AllInside, FinishCode;
    SlicesInside(t, relaxed, garbage, buf);
    FinishTellsOutcome(t, relaxed, garbage, buf);
    if FreshRun(t, relaxed, garbage, buf).cs == FIRST_FINAL {
      CallbackOrder(t, relaxed, garbage, buf);
    }
  }

  // ---- The uninitialised query start ----

  /** Actions that neither set nor read `query_start`, or set it before anything else. */
  predicate Blind(codes: seq<nat>) {
    (QUERY !in codes && START_QUERY !in codes) || (codes != [] && codes[0] == START_QUERY)
  }

  /** Registers up to `query_start`. */
  function Masked(g: Regs): Regs {
    g.(queryStart := 0)
  }

  lemma {:induction false} ActsBlind(g: Regs, g': Regs, codes: seq<nat>, i: nat, p: nat, pe: nat)
    requires i <= |codes| && QUERY !in codes && START_QUERY !in codes && Masked(g) == Masked(g')
    ensures var a, b := Acts(g, codes, i, p, pe), Acts(g', codes, i, p, pe);
      Masked(a.0) == Masked(b.0) && a.1 == b.1
    decreases |codes| - i
  {
    if i < |codes| && codes[i] != DONE {
      ActsBlind(Act(g, codes[i], p), Act(g', codes[i], p), codes, i + 1, p, pe);
    }
  }

  predicate InQueryText(s: nat) {
    30 <= s <= 32
  }

  predicate Reading(s: nat) {
    RequestState(s) || SocketState(s)
  }

  /** A transition that `query_start` cannot steer, and that leaves it set if it enters query text. */
  predicate EdgeBlind(e: Edge) {
    && Blind(e.actions) && (e == FAIL || Reading(e.target) || DONE in e.actions)
    && (InQueryText(e.target) ==> e.actions != [] && e.actions[0] == START_QUERY)
  }

  lemma LineDeltasBlind(s: nat, c: int, relaxed: bool)
    ensures MethodState(s) ==> EdgeBlind(MethodDelta(s, c))
    ensures StartState(s) ==> EdgeBlind(StartDelta(s, c, relaxed))
    ensures FragmentState(s) ==> EdgeBlind(FragmentDelta(s, c, relaxed))
  {
  }

  lemma TailDeltasBlind(s: nat, c: int, relaxed: bool)
    ensures VersionState(s) ==> EdgeBlind(VersionDelta(s, c))
    ensures HeaderState(s) ==> EdgeBlind(HeaderDelta(s, c))
    ensures s == 29 ==> EdgeBlind(QueryDelta(s, c, relaxed))
  {
  }

  /** Outside of query text, no transition reads `query_start` unset, and entering query text sets it. */
  lemma EdgesBlind(t: Tables, relaxed: bool, s: nat, c: char)
    requires IsRequestTable(t) && Reading(s) && !InQueryText(s) && c as int < 256
    ensures EdgeBlind(Taken(t, relaxed, s, c))
  {
    hide Taken, MethodDelta, StartDelta, FragmentDelta, VersionDelta, HeaderDelta, QueryDelta, PathDelta;
    var b := Signed(c);
    if SocketState(s) {
      assert SocketEdge(Taken(t, relaxed, s, c));
    } else if LiteralState(s) {
      assert LiteralEdge(b, Taken(t, relaxed, s, c));
    } else {
      TakenIsDelta(t, relaxed, s, c);
      LineDeltasBlind(s, b, relaxed);
      TailDeltasBlind(s, b, relaxed);
      if PathState(s) {
        PathEdges(s, b, relaxed);
      }
    }
  }

  /** One byte from registers equal up to `query_start`: equal up to it again, or equal altogether. */
  lemma StepBlind(t: Tables, relaxed: bool, cs: nat, g: Regs, g': Regs, c: char, p: nat, pe: nat)
    requires IsRequestTable(t) && c as int < 256 && Reading(cs) && !InQueryText(cs) && Masked(g) == Masked(g')
    ensures var e := Taken(t, relaxed, cs, c);
      var a, b := Acts(g, e.actions, 0, p, pe), Acts(g', e.actions, 0, p, pe);
      && Masked(a.0) == Masked(b.0) && a.1 == b.1
      && (a.0 == b.0 || a.1 || e.target == ERROR || (Reading(e.target) && !InQueryText(e.target)))
  {
    EdgesBlind(t, relaxed, cs, c);
    hide Taken, IsRequestTable;
    var e := Taken(t, relaxed, cs, c);
    DoneInCodes(g, e.actions, 0, p, pe);
    if e.actions != [] && e.actions[0] == START_QUERY {
      EntersQuery(g, g', p);
    } else {
      ActsBlind(g, g', e.actions, 0, p, pe);
    }
  }

  lemma {:induction false} RunBlind(t: Tables, relaxed: bool, cs: nat, g: Regs, g': Regs, buf: string, p: nat)
    requires IsRequestTable(t) && Bytes(buf) && p <= |buf| && Reading(cs) && !InQueryText(cs)
    requires Masked(g) == Masked(g')
    ensures var a, b := Run(t, relaxed, cs, g, buf, p), Run(t, relaxed, cs, g', buf, p);
      a.cs == b.cs && a.p == b.p && a.done == b.done && Masked(a.regs) == Masked(b.regs)
    decreases |buf| - p
  {
    assert WellFormed(t) && cs < States(t) && cs != ERROR;
    if p < |buf| {
      hide Run, Taken, IsRequestTable, WellFormed, Acts, Masked, InQueryText, Reading, States;
      RunStep(t, relaxed, cs, g, buf, p);
      RunStep(t, relaxed, cs, g', buf, p);
      var e := Taken(t, relaxed, cs, buf[p]);
      StepBlind(t, relaxed, cs, g, g', buf[p], p, |buf|);
      var a, b := Acts(g, e.actions, 0, p, |buf|), Acts(g', e.actions, 0, p, |buf|);
      if a.0 != b.0 && !a.1 && e.target != ERROR {
        RunBlind(t, relaxed, e.target, a.0, b.0, buf, p + 1);
      }
    }
  }

  lemma EntersQuery(g: Regs, g': Regs, p: nat)
    requires Masked(g) == Masked(g')
    ensures Act(g, START_QUERY, p) == Act(g', START_QUERY, p)
  {
  }

  lemma {:induction false} DoneInCodes(g: Regs, codes: seq<nat>, i: nat, p: nat, pe: nat)
    requires i <= |codes|
    ensures Acts(g, codes, i, p, pe).1 <==> DONE in codes[i..]
    decreases |codes| - i
  {
    if i < |codes| && codes[i] != DONE {
      DoneInCodes(Act(g, codes[i], p), codes, i + 1, p, pe);
      assert codes[i..] == [codes[i]] + codes[i + 1..];
    }
  }

  /**
   `http_parser_init` never sets `query_start`, and it does not matter: the run makes the same callbacks with
   the same slices whatever the field held before, and differs in no other field.
   */
  lemma GarbageNeverShows(t: Tables, relaxed: bool, q: nat, q': nat, buf: string)
    requires IsRequestTable(t) && Bytes(buf)
    ensures var a, b := FreshRun(t, relaxed, q, buf), FreshRun(t, relaxed, q', buf);
      a.cs == b.cs && a.p == b.p && a.done == b.done && Masked(a.regs) == Masked(b.regs)
  {
    RunBlind(t, relaxed, START, Initial(q).regs, Initial(q').regs, buf, 0);
  }
}
