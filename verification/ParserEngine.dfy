/**
 The driver of the incremental HTTP parser: `http_parser_init`, `http_parser_execute` and
 `http_parser_finish` over any well-formed tables.

 A parser is called again and again on one buffer that grows; it goes on at the offset it reached. `Run` is
 the driver's loop as a function, and the class at the end is the parser that updates its fields in place.
 Callbacks are recorded, in the order in which they are made, as positions in the buffer.
 */
module ParserEngine {
  import opened TableSearch

  // The action codes of the generated switch.
  const MARK: nat := 0
  const START_FIELD: nat := 1
  const WRITE_FIELD: nat := 2
  const START_VALUE: nat := 3
  const WRITE_VALUE: nat := 4
  const METHOD: nat := 5
  const URI: nat := 6
  const FRAGMENT: nat := 7
  const START_QUERY: nat := 8
  const QUERY: nat := 9
  const VERSION: nat := 10
  const PATH: nat := 11
  const DONE: nat := 12
  const XML: nat := 13
  const JSON: nat := 14

  const START: nat := 1
  const FIRST_FINAL: nat := 348
  const ERROR: nat := 0

  /** A callback: an element slice, a name/value pair of slices, or the end of the headers. */
  datatype Call =
    | Element(kind: nat, start: nat, len: int)
    | Field(nameStart: nat, nameLen: int, valueStart: nat, valueLen: int)
    | HeaderDone(at: nat)

  /**
   The fields that the actions read and write, and the callbacks made; `trailing` is the byte count given
   with the latest `HeaderDone`.
   */
  datatype Regs = Regs(
    mark: nat, fieldStart: nat, fieldLen: int, queryStart: nat, bodyStart: nat, contentLen: int,
    xmlSent: bool, jsonSent: bool, calls: seq<Call>, trailing: int)

  datatype Machine = Machine(cs: nat, nread: int, regs: Regs)

  /** `http_parser_init` leaves `query_start` alone, so it is whatever it was. */
  function Initial(queryStart: nat): Machine {
    Machine(START, 0, Regs(0, 0, 0, queryStart, 0, 0, false, false, [], 0))
  }

  /** A `char` of the buffer, as the signed byte the driver compares with the keys. */
  function Signed(c: char): int {
    if c as int < 128 then c as int else c as int - 256
  }

  /** The byte in two's complement: the one number of a signed byte that leaves the same remainder as the character. */
  lemma SignedByte(c: char)
    requires c as int < 256
    ensures -128 <= Signed(c) < 128 && (Signed(c) - c as int) % 256 == 0
    ensures Signed(c) < 0 <==> c as int >= 128
  {
  }

  // ---- One transition ----

  /** One action other than `DONE`, at position `p`. */
  function Act(g: Regs, code: nat, p: nat): Regs {
    if code == MARK || code == START_VALUE then g.(mark := p)
    else if code == START_FIELD then g.(fieldStart := p)
    else if code == WRITE_FIELD then g.(fieldLen := p - g.fieldStart)
    else if code == WRITE_VALUE then
      g.(calls := g.calls + [Field(g.fieldStart, g.fieldLen, g.mark, p - g.mark)])
    else if code == START_QUERY then g.(queryStart := p)
    else if code == QUERY then g.(calls := g.calls + [Element(QUERY, g.queryStart, p - g.queryStart)])
    else if code == XML then g.(xmlSent := true)
    else if code == JSON then g.(jsonSent := true)
    else if code == METHOD || code == URI || code == FRAGMENT || code == VERSION || code == PATH then
      g.(calls := g.calls + [Element(code, g.mark, p - g.mark)])
    else g
  }

  function Finish(g: Regs, p: nat, pe: nat): Regs {
    if g.xmlSent || g.jsonSent then
      g.(bodyStart := g.mark, contentLen := p - g.mark + 1)
    else
      g.(bodyStart := p + 1, calls := g.calls + [HeaderDone(p + 1)], trailing := pe - p - 1)
  }

  /** The actions from the `i`-th on; `DONE` leaves the driver at once. */
  function Acts(g: Regs, codes: seq<nat>, i: nat, p: nat, pe: nat): (Regs, bool)
    requires i <= |codes|
    decreases |codes| - i
  {
    if i == |codes| then (g, false)
    else if codes[i] == DONE then (Finish(g, p, pe), true)
    else Acts(Act(g, codes[i], p), codes, i + 1, p, pe)
  }

  /** Actions one after the other: nothing between them is lost, and behind `DONE` nothing happens. */
  lemma {:induction false} ActsOneByOne(g: Regs, codes: seq<nat>, i: nat, k: nat, p: nat, pe: nat)
    requires i <= k <= |codes| && DONE !in codes[i..k]
    ensures var mid := Acts(g, codes[..k], i, p, pe);
      !mid.1 && Acts(g, codes, i, p, pe) == Acts(mid.0, codes, k, p, pe)
    decreases k - i
  {
    if i < k {
      assert codes[i..k] == [codes[i]] + codes[i + 1..k];
      ActsOneByOne(Act(g, codes[i], p), codes, i + 1, k, p, pe);
    }
  }

  // ---- The loop ----

  datatype Ran = Ran(cs: nat, regs: Regs, p: nat, done: bool)

  /** The transition of one byte. */
  function Taken(t: Tables, relaxed: bool, cs: nat, c: char): (e: Edge)
    requires WellFormed(t) && cs < States(t)
    ensures e.target < States(t)
  {
    TakeByte(RowOf(t, cs), Signed(c), relaxed)
  }

  /** Bytes from `p` to the end of the buffer, to an error, or to `DONE`. */
  function Run(t: Tables, relaxed: bool, cs: nat, g: Regs, buf: string, p: nat): (r: Ran)
    requires WellFormed(t) && cs < States(t) && p <= |buf|
    ensures r.cs < States(t) && p <= r.p <= |buf|
    decreases |buf| - p
  {
    if p == |buf| || cs == ERROR then Ran(cs, g, p, false)
    else
      var e := Taken(t, relaxed, cs, buf[p]);
      var (next, done) := Acts(g, e.actions, 0, p, |buf|);
      if done then Ran(e.target, next, p + 1, true)
      else if e.target == ERROR then Ran(ERROR, next, p, false)
      else Run(t, relaxed, e.target, next, buf, p + 1)
  }

  lemma RunHalts(t: Tables, relaxed: bool, cs: nat, g: Regs, buf: string, p: nat)
    requires WellFormed(t) && cs < States(t) && p <= |buf|
    ensures p == |buf| || cs == ERROR ==> Run(t, relaxed, cs, g, buf, p) == Ran(cs, g, p, false)
  {
  }

  /** One byte of a run. */
  lemma RunStep(t: Tables, relaxed: bool, cs: nat, g: Regs, buf: string, p: nat)
    requires WellFormed(t) && cs < States(t) && p < |buf| && cs != ERROR
    ensures var e := Taken(t, relaxed, cs, buf[p]);
      var r := Acts(g, e.actions, 0, p, |buf|);
      && (r.1 ==> Run(t, relaxed, cs, g, buf, p) == Ran(e.target, r.0, p + 1, true))
      && (!r.1 && e.target == ERROR ==> Run(t, relaxed, cs, g, buf, p) == Ran(ERROR, r.0, p, false))
      && (!r.1 && e.target != ERROR ==>
            Run(t, relaxed, cs, g, buf, p) == Run(t, relaxed, e.target, r.0, buf, p + 1))
  {
  }

  /** What one call of `http_parser_execute` leaves: `ok` says that no assertion stopped it. */
  datatype Outcome = Outcome(m: Machine, result: int, ok: bool, done: bool)

  predicate ClosingAsserts(m: Machine, len: nat) {
    && 0 <= m.nread <= len && m.regs.bodyStart <= len && m.regs.mark < len
    && 0 <= m.regs.fieldLen <= len && m.regs.fieldStart < len
  }

  function Executed(t: Tables, relaxed: bool, m: Machine, buf: string, off: nat): (o: Outcome)
    requires WellFormed(t) && m.cs < States(t)
    ensures o.m.cs < States(t)
  {
    if |buf| == 0 then Outcome(m, 0, true, false)
    else if off > |buf| then Outcome(m, 0, false, false)
    else
      var r := Run(t, relaxed, m.cs, m.regs, buf, off);
      var after := Machine(if m.cs == ERROR then m.cs else r.cs, m.nread + (r.p - off), r.regs);
      Outcome(after, after.nread, ClosingAsserts(after, |buf|), r.done)
  }

  function FinishCode(cs: nat): int {
    if cs == ERROR then -1 else if cs >= FIRST_FINAL then 1 else 0
  }

  // ---- The parser as an object ----

  class HttpParser {
    const table: Tables
    var uriRelaxed: bool
    var cs: nat
    var nread: int
    var mark: nat
    var fieldStart: nat
    var fieldLen: int
    var queryStart: nat
    var bodyStart: nat
    var contentLen: int
    var xmlSent: bool
    var jsonSent: bool
    var calls: seq<Call>
    var trailing: int

    ghost predicate Valid()
      reads this
    {
      WellFormed(table) && START < States(table) && cs < States(table)
    }

    ghost function Registers(): Regs
      reads this
    {
      Regs(mark, fieldStart, fieldLen, queryStart, bodyStart, contentLen, xmlSent, jsonSent, calls, trailing)
    }

    ghost function State(): Machine
      reads this
    {
      Machine(cs, nread, Registers())
    }

    constructor (t: Tables, relaxed: bool, garbage: nat)
      requires WellFormed(t) && START < States(t)
      ensures Valid() && table == t && uriRelaxed == relaxed && State() == Initial(garbage)
      ensures cs == 1 && nread == 0 && mark == 0 && fieldStart == 0 && fieldLen == 0 && bodyStart == 0
      ensures contentLen == 0 && !xmlSent && !jsonSent && queryStart == garbage && calls == [] && trailing == 0
    {
      table, uriRelaxed, queryStart := t, relaxed, garbage;
      cs, bodyStart, contentLen, mark, nread, fieldLen, fieldStart := START, 0, 0, 0, 0, 0, 0;
      xmlSent, jsonSent, calls, trailing := false, false, [], 0;
    }

    /** `http_parser_init`, on a parser that may have been used before. */
    method Init()
      requires Valid()
      modifies this
      ensures Valid() && uriRelaxed == old(uriRelaxed)
      ensures State() == Initial(old(queryStart))
      ensures cs == 1 && nread == 0 && mark == 0 && fieldStart == 0 && fieldLen == 0 && bodyStart == 0
      ensures contentLen == 0 && !xmlSent && !jsonSent && queryStart == old(queryStart) && calls == [] && trailing == 0
    {
      cs := START;
      bodyStart, contentLen, mark, nread, fieldLen, fieldStart := 0, 0, 0, 0, 0, 0;
      xmlSent, jsonSent := false, false;
      calls, trailing := [], 0;
    }

    /**
     One case of the switch, by its number there; `done` says that the driver is left. Each field is written by the
     cases named with it, and by no other.
     */
    method Perform(code: nat, p: nat, pe: nat) returns (done: bool)
      modifies this
      ensures cs == old(cs) && nread == old(nread) && uriRelaxed == old(uriRelaxed)
      ensures done <==> code == 12
      ensures Registers() == if done then Finish(old(Registers()), p, pe) else Act(old(Registers()), code, p)
      ensures mark == if code in {0, 3} then p else old(mark)
      ensures fieldStart == if code == 1 then p else old(fieldStart)
      ensures fieldLen == if code == 2 then p - old(fieldStart) else old(fieldLen)
      ensures queryStart == if code == 8 then p else old(queryStart)
      ensures xmlSent == (old(xmlSent) || code == 13) && jsonSent == (old(jsonSent) || code == 14)
      ensures var inText := old(xmlSent) || old(jsonSent);
        && (code == 12 && inText ==> bodyStart == old(mark) && bodyStart + contentLen == p + 1)
        && (code == 12 && !inText ==> bodyStart == p + 1 && bodyStart + trailing == pe)
        && (code != 12 ==> bodyStart == old(bodyStart))
        && (!(code == 12 && inText) ==> contentLen == old(contentLen))
        && (!(code == 12 && !inText) ==> trailing == old(trailing))
        && calls == old(calls) +
             if code == 4 then [Field(old(fieldStart), old(fieldLen), old(mark), p - old(mark))]
             else if code in {5, 6, 7, 10, 11} then [Element(code, old(mark), p - old(mark))]
             else if code == 9 then [Element(9, old(queryStart), p - old(queryStart))]
             else if code == 12 && !inText then [HeaderDone(p + 1)]
             else []
    {
      if code == MARK || code == START_VALUE {
        mark := p;
      } else if code == START_FIELD {
        fieldStart := p;
      } else if code == WRITE_FIELD {
        fieldLen := p - fieldStart;
      } else if code == WRITE_VALUE {
        calls := calls + [Field(fieldStart, fieldLen, mark, p - mark)];
      } else if code == START_QUERY {
        queryStart := p;
      } else if code == QUERY {
        calls := calls + [Element(QUERY, queryStart, p - queryStart)];
      } else if code == DONE {
        if xmlSent || jsonSent {
          bodyStart := mark;
          contentLen := p - bodyStart + 1;
        } else {
          bodyStart := p + 1;
          calls := calls + [HeaderDone(p + 1)];
          trailing := pe - p - 1;
        }
        return true;
      } else if code == XML {
        xmlSent := true;
      } else if code == JSON {
        jsonSent := true;
      } else if code == METHOD || code == URI || code == FRAGMENT || code == VERSION || code == PATH {
        calls := calls + [Element(code, mark, p - mark)];
      }
      return false;
    }

    /** The action loop of one transition; `done` says that the `DONE` action left the driver. */
    method Fire(codes: seq<nat>, p: nat, pe: nat) returns (done: bool)
      modifies this
      ensures cs == old(cs) && nread == old(nread) && uriRelaxed == old(uriRelaxed)
      ensures (Registers(), done) == Acts(old(Registers()), codes, 0, p, pe)
    {
      var i := 0;
      hide Act, Finish;
      while i < |codes|
        invariant i <= |codes|
        invariant cs == old(cs) && nread == old(nread) && uriRelaxed == old(uriRelaxed)
        invariant Acts(Registers(), codes, i, p, pe) == Acts(old(Registers()), codes, 0, p, pe)
      {
        done := Perform(codes[i], p, pe);
        if done {
          return;
        }
        i := i + 1;
      }
      return false;
    }

    /** The driver's loop from `off`; the state is kept in a local, as in the original. */
    method Drive(buf: string, off: nat) returns (state: nat, p: nat)
      requires Valid() && off < |buf| && cs != ERROR
      modifies this
      ensures cs == old(cs) && nread == old(nread) && uriRelaxed == old(uriRelaxed)
      ensures var r := Run(table, uriRelaxed, cs, old(Registers()), buf, off);
        state == r.cs && Registers() == r.regs && p == r.p
    {
      state, p := cs, off;
      var pe := |buf|;
      ghost var whole := Run(table, uriRelaxed, cs, Registers(), buf, off);
      while true
        invariant off <= p < pe && state < States(table) && state != ERROR
        invariant cs == old(cs) && nread == old(nread) && uriRelaxed == old(uriRelaxed)
        invariant whole == Run(table, uriRelaxed, state, Registers(), buf, p)
        decreases pe - p
      {
        ghost var e := Taken(table, uriRelaxed, state, buf[p]);
        var trans := Lookup(table, state, Signed(buf[p]), uriRelaxed);
        state := table.transTargs[trans];
        var codes := ActionList(trans);
        assert state == e.target && codes == e.actions;
        var done := Fire(codes, p, pe);
        if done {
          return state, p + 1;
        }
        if state == ERROR {
          return;
        }
        p := p + 1;
        if p == pe {
          return;
        }
      }
    }

    /** `http_parser_execute`: `ok` is false where the original stops at a failed assertion. */
    method Execute(buf: string, off: nat) returns (result: int, ok: bool)
      requires Valid()
      modifies this
      ensures Valid() && uriRelaxed == old(uriRelaxed)
      ensures var o := Executed(table, uriRelaxed, old(State()), buf, off);
        State() == o.m && result == o.result && ok == o.ok
      ensures |buf| == 0 || off > |buf| ==> State() == old(State()) && result == 0 && (ok <==> |buf| == 0)
      ensures 0 < |buf| && off <= |buf| ==>
                && result == nread
                && nread - old(nread) == Run(table, uriRelaxed, old(cs), old(Registers()), buf, off).p - off
                && (ok <==> 0 <= nread <= |buf| && bodyStart <= |buf| && mark < |buf|
                            && 0 <= fieldLen <= |buf| && fieldStart < |buf|)
      ensures old(cs) == 0 ==> cs == 0 && nread == old(nread) && calls == old(calls)
    {
      hide WellFormed, Run;
      if |buf| == 0 {
        return 0, true;
      }
      if off > |buf| {
        return 0, false;
      }
      RunHalts(table, uriRelaxed, cs, Registers(), buf, off);
      var state: nat, p: nat := cs, off;
      if off != |buf| && cs != ERROR {
        state, p := Drive(buf, off);
      }
      if cs != ERROR {
        cs := state;
      }
      nread := nread + (p - off);
      ok := 0 <= nread <= |buf| && bodyStart <= |buf| && mark < |buf| && 0 <= fieldLen <= |buf| && fieldStart < |buf|;
      return nread, ok;
    }

    /** The counted action list behind a transition. */
    method ActionList(trans: nat) returns (codes: seq<nat>)
      requires WellFormed(table) && trans < |table.transTargs|
      ensures codes == ActionsOf(table, trans)
      ensures TransShaped(table, trans)
      ensures var at := table.transActions[trans];
        && |codes| == (if at == 0 then 0 else table.actions[at])
        && forall k :: 0 <= k < |codes| ==> codes[k] == table.actions[at + 1 + k]
    {
      assert TransShaped(table, trans);
      var at := table.transActions[trans];
      if at == 0 {
        return [];
      }
      var count := table.actions[at];
      return table.actions[at + 1..at + 1 + count];
    }

    /** `http_parser_finish`. */
    method FinishResult() returns (r: int)
      ensures r == FinishCode(cs)
      ensures (r == -1 <==> cs == 0) && (r == 1 <==> cs >= 348) && (r == 0 <==> 0 < cs < 348)
    {
      if cs == ERROR {
        return -1;
      } else if cs >= FIRST_FINAL {
        return 1;
      } else {
        return 0;
      }
    }
  }
}
