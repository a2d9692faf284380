/**
 Requests that the incremental parser accepts.

 `RequestTheorems` says what a finished request must be; here is the other direction. A fresh parser run over a
 method, a target whose path has the form of the grammar, a version and header lines finishes, and reports exactly
 these parts.
 */
module RequestLines {
  import opened Prelude
  import opened TableSearch
  import opened ParserEngine
  import opened RequestTable
  import opened RequestText
  import opened RequestPaths
  import opened RequestTheorems
  import opened Splitting
  import opened TextParser
  import opened HeaderRuns

  // ---- Method ----

  /** The state behind `n` bytes of a method. */
  function MethodAt(n: nat): nat {
    if n == 0 then 1 else if n == 1 then 2 else 173 + n
  }

  lemma MethodEdge(n: nat, c: int, relaxed: bool)
    requires n < 20 && MethodByte(c)
    ensures Delta(MethodAt(n), c, relaxed) == Edge(MethodAt(n + 1), if n == 0 then [MARK] else [])
    ensures MethodAt(n) != ERROR && MethodAt(n + 1) != ERROR && Known(MethodAt(n))
  {
  }

  lemma MethodFires(g: Regs, n: nat)
    requires g.mark == 0
    ensures Fired(g, if n == 0 then [MARK] else [], n) == g
  {
  }

  lemma {:induction false} MethodRuns(t: Tables, relaxed: bool, g: Regs, buf: string, n: nat)
    requires IsRequestTable(t) && Bytes(buf) && n <= 20 && n <= |buf|
    requires g.mark == 0 && forall i :: 0 <= i < n ==> MethodByte(Signed(buf[i]))
    ensures MethodAt(n) < STATES
    ensures Run(t, relaxed, 1, g, buf, 0) == Run(t, relaxed, MethodAt(n), g, buf, n)
    decreases n
  {
    hide IsRequestTable, Run, Delta, MethodByte, Known, Fired;
    if n > 0 {
      MethodRuns(t, relaxed, g, buf, n - 1);
      MethodEdge(n - 1, Signed(buf[n - 1]), relaxed);
      MethodFires(g, n - 1);
      hide MethodAt;
      Goes(t, relaxed, MethodAt(n - 1), g, buf, n - 1, Edge(MethodAt(n), if n == 1 then [MARK] else []));
    }
  }

  lemma MethodEdgeOut(n: nat, relaxed: bool)
    requires 1 <= n <= 20
    ensures Known(MethodAt(n)) && Delta(MethodAt(n), 32, relaxed) == Edge(3, [METHOD])
  {
  }

  lemma MethodCloses(t: Tables, relaxed: bool, g: Regs, buf: string, n: nat)
    requires IsRequestTable(t) && Bytes(buf) && MethodText(buf, n) && g.mark == 0 && g.calls == []
    ensures Run(t, relaxed, 1, g, buf, 0)
         == Run(t, relaxed, 3, Asked(g, n), buf, n + 1)
  {
    assert Fired(g, [METHOD], n) == Asked(g, n) by {
      assert [] + [Element(METHOD, 0, n)] == [Element(METHOD, 0, n)];
    }
    assert Signed(buf[n]) == 32 && DONE !in [METHOD] && 3 != ERROR;
    assert 1 <= n <= 20 && n < |buf| && forall i :: 0 <= i < n ==> MethodByte(Signed(buf[i]));
    hide *;
    MethodRuns(t, relaxed, g, buf, n);
    MethodEdgeOut(n, relaxed);
    Goes(t, relaxed, MethodAt(n), g, buf, n, Edge(3, [METHOD]));
  }

  // ---- Query and fragment ----

  /** Query (29 at its start, then 30) or fragment (20, then 21) text: the state, and the registers. */
  function TextAt(start: nat, from: nat, p: nat): nat {
    if from == p then start else start + 1
  }

  function TextRegs(start: nat, g: Regs, from: nat, p: nat): Regs {
    if from == p then g else if start == 29 then g.(queryStart := from) else g.(mark := from)
  }

  function TextStart(start: nat): seq<nat> {
    if start == 29 then [START_QUERY] else [MARK]
  }

  lemma TextEdges(start: nat, s: nat, c: int, relaxed: bool)
    requires (start == 29 || start == 20) && (s == start || s == start + 1)
    ensures var codes := if s == start then TextStart(start) else [];
      && (TextByte(c, true, relaxed) ==> Delta(s, c, relaxed) == Edge(start + 1, codes))
      && (c == 37 ==> Delta(s, c, relaxed) == Edge(start + 2, codes))
    ensures HexByte(c) ==>
      Delta(start + 2, c, relaxed) == To(start + 3) && Delta(start + 3, c, relaxed) == To(start + 1)
  {
  }

  lemma TextMarks(start: nat, g: Regs, from: nat, p: nat)
    requires from <= p && (start == 29 || start == 20)
    ensures Fired(TextRegs(start, g, from, p), if from == p then TextStart(start) else [], p)
         == TextRegs(start, g, from, p + 1)
    ensures TextRegs(start, g, from, p + 1) == TextRegs(start, g, from, p + 3)
  {
  }

  lemma TextByteRuns(t: Tables, relaxed: bool, start: nat, g: Regs, buf: string, from: nat, p: nat)
    requires IsRequestTable(t) && Bytes(buf) && (start == 29 || start == 20)
    requires from <= p < |buf| && TextByte(Signed(buf[p]), true, relaxed)
    ensures TextAt(start, from, p) < STATES
    ensures Run(t, relaxed, TextAt(start, from, p), TextRegs(start, g, from, p), buf, p)
         == Run(t, relaxed, start + 1, TextRegs(start, g, from, p + 1), buf, p + 1)
  {
    var s := TextAt(start, from, p);
    var codes := if from == p then TextStart(start) else [];
    assert |codes| <= 3 && DONE !in codes && (s == start || s == start + 1) && (s == start) == (from == p);
    TextEdges(start, s, Signed(buf[p]), relaxed);
    TextMarks(start, g, from, p);
    LineStatesKnown(s);
    hide *;
    Goes(t, relaxed, s, TextRegs(start, g, from, p), buf, p, Edge(start + 1, codes));
  }

  lemma TextEscapeRuns(t: Tables, relaxed: bool, start: nat, g: Regs, buf: string, from: nat, p: nat)
    requires IsRequestTable(t) && Bytes(buf) && (start == 29 || start == 20)
    requires from <= p && p + 3 <= |buf| && buf[p] == '%' && HexChar(buf[p + 1]) && HexChar(buf[p + 2])
    ensures TextAt(start, from, p) < STATES
    ensures Run(t, relaxed, TextAt(start, from, p), TextRegs(start, g, from, p), buf, p)
         == Run(t, relaxed, start + 1, TextRegs(start, g, from, p + 3), buf, p + 3)
  {
    var s := TextAt(start, from, p);
    var codes := if from == p then TextStart(start) else [];
    assert |codes| <= 3 && DONE !in codes && (s == start || s == start + 1) && (s == start) == (from == p);
    assert HexByte(Signed(buf[p + 1])) && HexByte(Signed(buf[p + 2]));
    hide *;
    TextEdges(start, s, 37, relaxed);
    TextEdges(start, s, Signed(buf[p + 1]), relaxed);
    TextEdges(start, s, Signed(buf[p + 2]), relaxed);
    TextMarks(start, g, from, p);
    LineStatesKnown(s);
    LineStatesKnown(start + 2);
    LineStatesKnown(start + 3);
    LineStatesKnown(start + 1);
    EscapeRuns(t, relaxed, s, codes, start + 2, start + 1, TextRegs(start, g, from, p), buf, p);
  }

  lemma {:induction false} TextRuns(t: Tables, relaxed: bool, start: nat, g: Regs, buf: string, from: nat, end: nat)
    requires IsRequestTable(t) && Bytes(buf) && (start == 29 || start == 20)
    requires Readable(buf, from, end, true, relaxed)
    ensures Run(t, relaxed, start, g, buf, from)
         == Run(t, relaxed, TextAt(start, from, end), TextRegs(start, g, from, end), buf, end)
    decreases end
  {
    hide IsRequestTable, Run, TextByte, HexByte, HexChar, TextRegs;
    if end == from {
      NoText(start, g, from);
    } else if TextByte(Signed(buf[end - 1]), true, relaxed) && Readable(buf, from, end - 1, true, relaxed) {
      TextRuns(t, relaxed, start, g, buf, from, end - 1);
      TextByteRuns(t, relaxed, start, g, buf, from, end - 1);
    } else {
      TextRuns(t, relaxed, start, g, buf, from, end - 3);
      TextEscapeRuns(t, relaxed, start, g, buf, from, end - 3);
    }
  }

  lemma NoText(start: nat, g: Regs, from: nat)
    ensures TextRegs(start, g, from, from) == g
  {
  }

  lemma TextEdgesOut(start: nat, s: nat, c: int, relaxed: bool)
    requires (start == 29 || start == 20) && (s == start || s == start + 1)
    ensures var codes := if s == start then TextStart(start) else [];
      && (start == 29 && c == 32 ==> Delta(s, c, relaxed) == Edge(4, codes + [QUERY, URI]))
      && (start == 29 && c == 35 ==> Delta(s, c, relaxed) == Edge(20, codes + [QUERY, URI]))
      && (start == 20 && c == 32 ==> Delta(s, c, relaxed) == Edge(4, codes + [FRAGMENT]))
  {
  }

  function QueryReported(g: Regs, from: nat, p: nat): Regs {
    g.(queryStart := from, calls := g.calls + [Element(QUERY, from, p - from)])
  }

  function FragmentReported(g: Regs, from: nat, p: nat): Regs {
    g.(mark := from, calls := g.calls + [Element(FRAGMENT, from, p - from)])
  }

  lemma TextFires(g: Regs, from: nat, p: nat)
    requires from <= p
    ensures Fired(TextRegs(29, g, from, p), (if from == p then [START_QUERY] else []) + [QUERY, URI], p)
         == UriReported(QueryReported(g, from, p), p)
    ensures Fired(TextRegs(20, g, from, p), (if from == p then [MARK] else []) + [FRAGMENT], p)
         == FragmentReported(g, from, p)
  {
    if from == p {
      assert [START_QUERY] + [QUERY, URI] == [START_QUERY, QUERY, URI] && [MARK] + [FRAGMENT] == [MARK, FRAGMENT];
    } else {
      assert [] + [QUERY, URI] == [QUERY, URI] && [] + [FRAGMENT] == [FRAGMENT];
    }
  }

  lemma QueryOut(buf: string, from: nat, to: nat, target: nat, relaxed: bool) returns (codes: seq<nat>)
    requires from <= to < |buf| && ((target == 4 && buf[to] == ' ') || (target == 20 && buf[to] == '#'))
    ensures codes == (if from == to then [START_QUERY] else []) + [QUERY, URI] && |codes| <= 3 && DONE !in codes
    ensures Delta(TextAt(29, from, to), Signed(buf[to]), relaxed) == Edge(target, codes)
    ensures 29 <= TextAt(29, from, to) <= 30 && target != ERROR
  {
    codes := (if from == to then [START_QUERY] else []) + [QUERY, URI];
    TextEdgesOut(29, TextAt(29, from, to), Signed(buf[to]), relaxed);
  }

  /** From behind the question mark to behind the query. */
  lemma QueryRuns(t: Tables, relaxed: bool, g: Regs, buf: string, from: nat, to: nat, target: nat)
    requires IsRequestTable(t) && Bytes(buf) && Readable(buf, from, to, true, relaxed) && from <= to < |buf|
    requires (target == 4 && buf[to] == ' ') || (target == 20 && buf[to] == '#')
    ensures Run(t, relaxed, 29, g, buf, from)
         == Run(t, relaxed, target, UriReported(QueryReported(g, from, to), to), buf, to + 1)
  {
    hide *;
    TextRuns(t, relaxed, 29, g, buf, from, to);
    var codes := QueryOut(buf, from, to, target, relaxed);
    TextFires(g, from, to);
    LineStatesKnown(TextAt(29, from, to));
    Goes(t, relaxed, TextAt(29, from, to), TextRegs(29, g, from, to), buf, to, Edge(target, codes));
  }

  lemma FragmentOut(from: nat, to: nat, relaxed: bool) returns (codes: seq<nat>)
    requires from <= to
    ensures codes == (if from == to then [MARK] else []) + [FRAGMENT] && |codes| <= 3 && DONE !in codes
    ensures Delta(TextAt(20, from, to), Signed(' '), relaxed) == Edge(4, codes) && 20 <= TextAt(20, from, to) <= 21
    ensures 4 != ERROR
  {
    codes := (if from == to then [MARK] else []) + [FRAGMENT];
    TextEdgesOut(20, TextAt(20, from, to), 32, relaxed);
  }

  /** From behind the number sign to behind the fragment. */
  lemma FragmentRuns(t: Tables, relaxed: bool, g: Regs, buf: string, from: nat, to: nat)
    requires IsRequestTable(t) && Bytes(buf) && Readable(buf, from, to, true, relaxed)
    requires from <= to < |buf| && buf[to] == ' '
    ensures Run(t, relaxed, 20, g, buf, from) == Run(t, relaxed, 4, FragmentReported(g, from, to), buf, to + 1)
  {
    hide *;
    TextRuns(t, relaxed, 20, g, buf, from, to);
    var codes := FragmentOut(from, to, relaxed);
    TextFires(g, from, to);
    LineStatesKnown(TextAt(20, from, to));
    Goes(t, relaxed, TextAt(20, from, to), TextRegs(20, g, from, to), buf, to, Edge(4, codes));
  }

  // ---- Version ----

  ghost predicate VersionAt(buf: string, from: nat) {
    && from + 8 <= |buf| && buf[from..from + 7] == VERSION_TEXT
    && (buf[from + 7] == '0' || buf[from + 7] == '1')
  }

  /** Byte `n` of a version takes the parser from state `4 + n` to the next. */
  lemma VersionEdge(buf: string, from: nat, n: nat, relaxed: bool) returns (e: Edge)
    requires VersionAt(buf, from) && n < 8
    ensures from + 8 <= |buf| && Delta(4 + n, Signed(buf[from + n]), relaxed) == e
    ensures e == Edge(5 + n, if n == 0 then [MARK] else []) && |e.actions| <= 3 && DONE !in e.actions
    ensures e.target != ERROR
  {
    e := Edge(5 + n, if n == 0 then [MARK] else []);
    if n < 7 {
      assert buf[from + n] == buf[from..from + 7][n] == VERSION_TEXT[n];
    }
  }

  lemma VersionFires(g: Regs, from: nat)
    ensures Fired(g, [MARK], from) == g.(mark := from)
    ensures Fired(g.(mark := from), [VERSION], from + 8) == VersionReported(g, from)
  {
  }

  lemma {:induction false} VersionRuns(t: Tables, relaxed: bool, g: Regs, buf: string, from: nat, n: nat)
    requires IsRequestTable(t) && Bytes(buf) && VersionAt(buf, from) && 1 <= n <= 8
    ensures Run(t, relaxed, 4, g, buf, from) == Run(t, relaxed, 4 + n, g.(mark := from), buf, from + n)
    decreases n
  {
    hide *;
    var e := VersionEdge(buf, from, n - 1, relaxed);
    LineStatesKnown(3 + n);
    if n == 1 {
      VersionFires(g, from);
      Goes(t, relaxed, 4, g, buf, from, e);
    } else {
      VersionRuns(t, relaxed, g, buf, from, n - 1);
      FiresNothing(g.(mark := from), from + n - 1);
      Goes(t, relaxed, 3 + n, g.(mark := from), buf, from + n - 1, e);
    }
  }

  function VersionReported(g: Regs, from: nat): Regs {
    g.(mark := from, calls := g.calls + [Element(VERSION, from, VERSION_LEN)])
  }

  lemma VersionOut(c: char, relaxed: bool)
    requires c == '\r' || c == '\n'
    ensures Delta(12, Signed(c), relaxed) == Edge(BreakState(c), [VERSION]) && DONE !in [VERSION]
    ensures BreakState(c) == (if c == '\n' then 13 else 17) && BreakState(c) != ERROR
  {
  }

  /** A line break starts with one of two bytes, and only the CR has another behind it. */
  lemma BreakBytes(buf: string, p: nat, line: nat)
    requires LineBreak(buf, p, line)
    ensures p < |buf| && line <= |buf| && (buf[p] == '\r' || buf[p] == '\n')
    ensures buf[p] == '\n' ==> line == p + 1
    ensures buf[p] == '\r' ==> line == p + 2 && p + 1 < |buf| && buf[p + 1] == '\n'
  {
  }

  /** The version and its line break. */
  lemma VersionCloses(t: Tables, relaxed: bool, g: Regs, buf: string, from: nat, line: nat)
    requires IsRequestTable(t) && Bytes(buf) && VersionAt(buf, from) && from + 8 <= |buf| && line <= |buf|
    requires LineBreak(buf, from + 8, line)
    ensures Run(t, relaxed, 4, g, buf, from) == Run(t, relaxed, 13, VersionReported(g, from), buf, line)
  {
    hide *;
    BreakBytes(buf, from + 8, line);
    VersionRuns(t, relaxed, g, buf, from, 8);
    VersionOut(buf[from + 8], relaxed);
    VersionFires(g, from);
    LineStatesKnown(12);
    Goes(t, relaxed, 12, g.(mark := from), buf, from + 8, Edge(BreakState(buf[from + 8]), [VERSION]));
    if buf[from + 8] == '\r' {
      LfStep(t, relaxed, VersionReported(g, from), buf, from + 9);
    }
  }

  // ---- The target ----

  /** The path starts behind a scheme and its colon, not behind the method's space. */
  predicate Schemed(h: Head) {
    h.uriStart != h.methodLen + 1
  }

  /** A request line whose path has the form of the grammar, address literals aside. */
  ghost predicate LineText(buf: string, h: Head, relaxed: bool) {
    && HeadText(buf, h, relaxed) && Readable(buf, h.uriStart, PathEnd(h), false, relaxed)
    && PathForm(buf, h.uriStart, PathEnd(h), Schemed(h))
  }

  lemma LineTextIs(buf: string, h: Head, relaxed: bool)
    requires HeadText(buf, h, relaxed) && Readable(buf, h.uriStart, PathEnd(h), false, relaxed)
    requires h.uriStart <= PathEnd(h) <= |buf| && PathForm(buf, h.uriStart, PathEnd(h), Schemed(h))
    ensures LineText(buf, h, relaxed)
  {
  }

  /** The parts of a request line one by one. */
  lemma LineParts(buf: string, h: Head, relaxed: bool)
    requires HeadText(buf, h, relaxed) && Readable(buf, h.uriStart, PathEnd(h), false, relaxed)
    ensures MethodText(buf, h.methodLen) && VersionAt(buf, TargetEnd(h) + 1) && VersionEnd(h) == TargetEnd(h) + 9
    ensures h.methodLen + 1 <= h.uriStart <= PathEnd(h) <= UriEnd(h) <= TargetEnd(h) && VersionEnd(h) <= |buf|
    ensures TargetEnd(h) < |buf| && buf[TargetEnd(h)] == ' '
    ensures Schemed(h) ==> SchemeText(buf, h.methodLen + 1, h.uriStart - 1) && buf[h.uriStart - 1] == ':'
                           && h.methodLen + 1 < h.uriStart - 1
    ensures buf[PathEnd(h)] == if h.query.Some? then '?' else if h.fragment.Some? then '#' else ' '
    ensures h.query.Some? ==> Readable(buf, PathEnd(h) + 1, UriEnd(h), true, relaxed) && PathEnd(h) + 1 <= UriEnd(h)
                              && buf[UriEnd(h)] == if h.fragment.Some? then '#' else ' '
    ensures h.query.None? ==> UriEnd(h) == PathEnd(h)
    ensures h.fragment.Some? ==> Readable(buf, UriEnd(h) + 1, TargetEnd(h), true, relaxed)
                                 && UriEnd(h) + 1 <= TargetEnd(h)
    ensures h.fragment.None? ==> TargetEnd(h) == UriEnd(h)
  {
    hide MethodText, Readable, Without, SchemeText;
  }

  /** What is reported does not depend on the mark a scheme left. */
  lemma MarkIsNew(g: Regs, mark: nat, from: nat, p: nat, c: char)
    ensures PathClosed(g.(mark := mark), from, p, c) == PathClosed(g, from, p, c)
  {
  }

  /** What becomes of a readable path: reported at the character that ends it, or dead. */
  ghost predicate PathOutcome(t: Tables, relaxed: bool, r: Ran, g: Regs, buf: string, from: nat, p: nat, schemed: bool)
    requires IsRequestTable(t) && from <= p < |buf| && PathTarget(buf[p]) < STATES
  {
    if PathForm(buf, from, p, schemed) then
      r == Run(t, relaxed, PathTarget(buf[p]), PathClosed(g, from, p, buf[p]), buf, p + 1)
    else r.cs == ERROR
  }

  lemma PathComesOut(t: Tables, relaxed: bool, g: Regs, g': Regs, buf: string, from: nat, p: nat, schemed: bool)
    requires IsRequestTable(t) && Bytes(buf) && Readable(buf, from, p, false, relaxed)
    requires from <= p < |buf| && buf[p] in [' ', '#', '?'] && (schemed || !Scheming(buf, from, p))
    requires PathClosed(g', from, p, buf[p]) == PathClosed(g, from, p, buf[p])
    ensures PathTarget(buf[p]) < STATES && StartOf(schemed) < STATES
    ensures PathOutcome(t, relaxed, Run(t, relaxed, StartOf(schemed), g', buf, from), g, buf, from, p, schemed)
  {
    PathsExactly(t, relaxed, g', buf, from, p, schemed);
    hide Run, IsRequestTable, PathForm, PathClosed, Readable;
  }

  lemma StartsAre()
    ensures StartOf(true) == 174 && StartOf(false) == 3
  {
  }

  lemma UnschemedStart(h: Head)
    ensures !Schemed(h) ==> h.uriStart == h.methodLen + 1
  {
  }

  lemma SchemeLeads(t: Tables, relaxed: bool, g: Regs, buf: string, start: nat, from: nat) returns (g': Regs)
    requires IsRequestTable(t) && Bytes(buf) && start + 1 < from <= |buf|
    requires SchemeText(buf, start, from - 1) && buf[from - 1] == ':'
    ensures StartOf(true) < STATES && 3 < STATES && g' == g.(mark := start)
    ensures Run(t, relaxed, 3, g, buf, start) == Run(t, relaxed, StartOf(true), g', buf, from)
  {
    hide *;
    StartsAre();
    g' := g.(mark := start);
    SchemeCloses(t, relaxed, g, buf, start, from - 1);
    LineStatesKnown(3);
    KnownInTable(3);
  }

  lemma SchemedTargetRuns(t: Tables, relaxed: bool, g: Regs, buf: string, start: nat, from: nat, p: nat)
    requires IsRequestTable(t) && Bytes(buf) && Readable(buf, from, p, false, relaxed)
    requires start + 1 < from <= p < |buf| && buf[p] in [' ', '#', '?']
    requires SchemeText(buf, start, from - 1) && buf[from - 1] == ':'
    ensures PathTarget(buf[p]) < STATES && 3 < STATES
    ensures PathOutcome(t, relaxed, Run(t, relaxed, 3, g, buf, start), g, buf, from, p, true)
  {
    hide *;
    var g' := SchemeLeads(t, relaxed, g, buf, start, from);
    MarkIsNew(g, start, from, p, buf[p]);
    PathComesOut(t, relaxed, g, g', buf, from, p, true);
  }

  lemma KnownInTable(s: nat)
    requires Known(s)
    ensures s < STATES
  {
  }

  /** From behind the method: a path of the form is reported, and a run over any other dies. */
  lemma TargetRuns(t: Tables, relaxed: bool, g: Regs, buf: string, h: Head)
    requires IsRequestTable(t) && Bytes(buf) && HeadText(buf, h, relaxed)
    requires Readable(buf, h.uriStart, PathEnd(h), false, relaxed) && PathEnd(h) < |buf| && h.uriStart <= PathEnd(h)
    requires h.methodLen + 1 <= |buf| && (Schemed(h) || !Scheming(buf, h.uriStart, PathEnd(h)))
    ensures PathTarget(buf[PathEnd(h)]) < STATES && 3 < STATES
    ensures PathOutcome(t, relaxed, Run(t, relaxed, 3, g, buf, h.methodLen + 1), g, buf, h.uriStart, PathEnd(h),
                        Schemed(h))
  {
    hide *;
    StartsAre();
    UnschemedStart(h);
    LineParts(buf, h, relaxed);
    EndsPath(buf[PathEnd(h)], h);
    if Schemed(h) {
      SchemedTargetRuns(t, relaxed, g, buf, h.methodLen + 1, h.uriStart, PathEnd(h));
    } else {
      PathComesOut(t, relaxed, g, g, buf, h.uriStart, PathEnd(h), false);
    }
  }

  lemma EndsPath(c: char, h: Head)
    requires c == if h.query.Some? then '?' else if h.fragment.Some? then '#' else ' '
    ensures c in [' ', '#', '?']
  {
  }

  // ---- The whole line ----

  /** Behind path and query, whatever follows: the state and the registers. */
  function AfterUriState(h: Head): nat {
    if h.fragment.Some? then 20 else 4
  }

  function UriRegs(g: Regs, h: Head): Regs {
    var path := PathReported(g, h.uriStart, PathEnd(h));
    UriReported(if h.query.Some? then QueryReported(path, PathEnd(h) + 1, UriEnd(h)) else path, UriEnd(h))
  }

  lemma UriRegsAre(g: Regs, h: Head, c: char)
    requires c == if h.query.Some? then '?' else if h.fragment.Some? then '#' else ' '
    ensures var path := PathClosed(g, h.uriStart, PathEnd(h), c);
      && (h.query.Some? ==>
            UriRegs(g, h) == UriReported(QueryReported(path, PathEnd(h) + 1, UriEnd(h)), UriEnd(h)))
      && (h.query.Some? ==> PathTarget(c) == 29)
      && (h.query.None? ==> PathTarget(c) == AfterUriState(h) && UriEnd(h) == PathEnd(h) && UriRegs(g, h) == path)
    ensures AfterUriState(h) == if h.fragment.Some? then 20 else 4
  {
  }

  lemma LineTextParts(buf: string, h: Head, relaxed: bool)
    requires LineText(buf, h, relaxed)
    ensures HeadText(buf, h, relaxed) && Readable(buf, h.uriStart, PathEnd(h), false, relaxed)
    ensures h.uriStart <= PathEnd(h) <= |buf| && PathForm(buf, h.uriStart, PathEnd(h), Schemed(h))
    ensures Schemed(h) || !Scheming(buf, h.uriStart, PathEnd(h))
  {
    hide FirstAt, SchemeText, AuthorityForm, HeadText;
    if Hosted(buf, h.uriStart, PathEnd(h)) {
      SlashFirst(buf, h.uriStart, PathEnd(h));
    }
  }

  lemma TargetReported(t: Tables, relaxed: bool, g: Regs, buf: string, h: Head)
    requires IsRequestTable(t) && Bytes(buf) && HeadText(buf, h, relaxed)
    requires Readable(buf, h.uriStart, PathEnd(h), false, relaxed) && PathEnd(h) < |buf| && h.uriStart <= PathEnd(h)
    requires h.methodLen + 1 <= |buf| && (Schemed(h) || !Scheming(buf, h.uriStart, PathEnd(h)))
    requires PathForm(buf, h.uriStart, PathEnd(h), Schemed(h))
    ensures PathTarget(buf[PathEnd(h)]) < STATES && 3 < STATES
    ensures Run(t, relaxed, 3, g, buf, h.methodLen + 1) ==
            Run(t, relaxed, PathTarget(buf[PathEnd(h)]), PathClosed(g, h.uriStart, PathEnd(h), buf[PathEnd(h)]), buf,
                PathEnd(h) + 1)
  {
    TargetRuns(t, relaxed, g, buf, h);
    hide Run, IsRequestTable, HeadText, Readable, PathForm, PathClosed;
  }

  lemma UriRuns(t: Tables, relaxed: bool, g: Regs, buf: string, h: Head)
    requires IsRequestTable(t) && Bytes(buf) && LineText(buf, h, relaxed)
    ensures h.methodLen + 1 <= |buf| && UriEnd(h) + 1 <= |buf| && AfterUriState(h) < STATES
    ensures Run(t, relaxed, 3, g, buf, h.methodLen + 1) ==
            Run(t, relaxed, AfterUriState(h), UriRegs(g, h), buf, UriEnd(h) + 1)
  {
    hide *;
    LineTextParts(buf, h, relaxed);
    LineParts(buf, h, relaxed);
    UriRegsAre(g, h, buf[PathEnd(h)]);
    LineStatesKnown(AfterUriState(h));
    KnownInTable(AfterUriState(h));
    TargetReported(t, relaxed, g, buf, h);
    if h.query.Some? {
      QueryRuns(t, relaxed, PathClosed(g, h.uriStart, PathEnd(h), buf[PathEnd(h)]), buf, PathEnd(h) + 1, UriEnd(h),
                AfterUriState(h));
    }
  }

  /** Registers behind the method and its space. */
  function Asked(g: Regs, n: nat): Regs {
    g.(calls := [Element(METHOD, 0, n)])
  }

  function LineRegs(g: Regs, h: Head): Regs {
    var uri := UriRegs(Asked(g, h.methodLen), h);
    var target := if h.fragment.Some? then FragmentReported(uri, UriEnd(h) + 1, TargetEnd(h)) else uri;
    VersionReported(target, TargetEnd(h) + 1)
  }

  lemma LineRegsAre(g: Regs, h: Head)
    ensures var uri := UriRegs(Asked(g, h.methodLen), h);
      && (h.fragment.Some? ==>
            LineRegs(g, h) == VersionReported(FragmentReported(uri, UriEnd(h) + 1, TargetEnd(h)), TargetEnd(h) + 1))
      && (h.fragment.None? ==> TargetEnd(h) == UriEnd(h) && LineRegs(g, h) == VersionReported(uri, TargetEnd(h) + 1))
    ensures AfterUriState(h) == if h.fragment.Some? then 20 else 4
  {
  }

  /** From the start of a request to behind its line. */
  lemma LineRuns(t: Tables, relaxed: bool, g: Regs, buf: string, h: Head, line: nat)
    requires IsRequestTable(t) && Bytes(buf) && LineText(buf, h, relaxed) && g.mark == 0 && g.calls == []
    requires LineBreak(buf, VersionEnd(h), line) && line <= |buf|
    ensures Run(t, relaxed, 1, g, buf, 0) == Run(t, relaxed, 13, LineRegs(g, h), buf, line)
  {
    hide *;
    LineTextParts(buf, h, relaxed);
    LineParts(buf, h, relaxed);
    LineRegsAre(g, h);
    var uri := UriRegs(Asked(g, h.methodLen), h);
    MethodCloses(t, relaxed, g, buf, h.methodLen);
    UriRuns(t, relaxed, Asked(g, h.methodLen), buf, h);
    if h.fragment.Some? {
      FragmentRuns(t, relaxed, uri, buf, UriEnd(h) + 1, TargetEnd(h));
      VersionCloses(t, relaxed, FragmentReported(uri, UriEnd(h) + 1, TargetEnd(h)), buf, TargetEnd(h) + 1, line);
    } else {
      VersionCloses(t, relaxed, uri, buf, TargetEnd(h) + 1, line);
    }
  }

  /** The calls of the line are those of its view. */
  lemma LineCalls(g: Regs, h: Head)
    ensures LineRegs(g, h).calls == HeadCalls(h)
    ensures LineRegs(g, h).xmlSent == g.xmlSent && LineRegs(g, h).jsonSent == g.jsonSent
  {
    UriRegsCalls(Asked(g, h.methodLen), h);
    assert UriCalls(h) + [] == UriCalls(h);
    hide UriRegs, UriCalls;
  }

  lemma UriRegsCalls(g: Regs, h: Head)
    requires g.calls == MethodCalls(h)
    ensures UriRegs(g, h).calls == UriCalls(h)
    ensures UriRegs(g, h).xmlSent == g.xmlSent && UriRegs(g, h).jsonSent == g.jsonSent
  {
    assert PathCalls(h) + [] == PathCalls(h);
  }

  lemma FreshRegs(t: Tables, relaxed: bool, garbage: nat, buf: string) returns (g: Regs)
    requires IsRequestTable(t)
    ensures g.mark == 0 && g.calls == [] && !g.xmlSent && !g.jsonSent
    ensures FreshRun(t, relaxed, garbage, buf) == Run(t, relaxed, 1, g, buf, 0)
  {
    g := Initial(garbage).regs;
    hide Run;
  }

  /**
   Every such line with a printed block of good headers behind it is accepted: the run of a fresh parser finishes at
   the end of the block, whatever follows, and reports the parts of the line and of each header.
   */
  lemma PrintedBlockFinishes(t: Tables, relaxed: bool, garbage: nat, buf: string, h: Head, line: nat, hs: Headers)
    returns (parts: seq<Part>)
    requires IsRequestTable(t) && Bytes(buf) && LineText(buf, h, relaxed) && GoodHeaders(hs)
    requires LineBreak(buf, VersionEnd(h), line) && line <= |buf| && StandsAt(buf, line, PrintHeaders(hs) + CRLF)
    ensures PartsHold(buf, parts, hs)
    ensures var r := FreshRun(t, relaxed, garbage, buf);
      && r.cs == FIRST_FINAL && r.done && r.p == line + |PrintHeaders(hs)| + 2 && r.regs.bodyStart == r.p
      && r.regs.calls == HeadCalls(h) + PartCalls(parts) + [HeaderDone(r.p)]
  {
    hide *;
    var g := FreshRegs(t, relaxed, garbage, buf);
    LineRuns(t, relaxed, g, buf, h, line);
    LineCalls(g, h);
    parts := PrintedHeadersRun(t, relaxed, LineRegs(g, h), buf, line, hs);
  }

  // ---- Exactly the requests of the grammar ----

  /** A request whose head ends at `end`: a line, header lines, and two line breaks behind the last one's content. */
  ghost predicate IsRequest(buf: string, v: View, end: nat, relaxed: bool) {
    && LineText(buf, v.head, relaxed) && PartsText(buf, VersionEnd(v.head), v.parts) && NamesStart(buf, v.parts)
    && exists line :: LineBreak(buf, PartsEnd(VersionEnd(v.head), v.parts), line) && LineBreak(buf, line, end)
  }

  /** The run finished at `end` and reported the parts of the view. */
  ghost predicate Finishes(r: Ran, v: View, end: nat) {
    && r.cs == FIRST_FINAL && r.p == end
    && r.regs.calls == HeadCalls(v.head) + PartCalls(v.parts) + [HeaderDone(end)]
  }

  lemma FirstLineBreaks(buf: string, from: nat, parts: seq<Part>, line: nat)
    requires PartsText(buf, from, parts) && LineBreak(buf, PartsEnd(from, parts), line)
    ensures LineBreak(buf, from, FirstLineAt(parts, line))
    decreases |parts|
  {
    hide LineBreak, PartText;
    if parts != [] {
      var rest, f := parts[..|parts| - 1], parts[|parts| - 1];
      FirstLineBreaks(buf, from, rest, f.nameStart);
    }
  }

  lemma RequestFinishes(t: Tables, relaxed: bool, garbage: nat, buf: string, v: View, end: nat)
    requires IsRequestTable(t) && Bytes(buf) && IsRequest(buf, v, end, relaxed)
    ensures Finishes(FreshRun(t, relaxed, garbage, buf), v, end)
  {
    var from := VersionEnd(v.head);
    var line :| LineBreak(buf, PartsEnd(from, v.parts), line) && LineBreak(buf, line, end);
    hide *;
    var g := FreshRegs(t, relaxed, garbage, buf);
    FirstLineBreaks(buf, from, v.parts, line);
    BreakBytes(buf, from, FirstLineAt(v.parts, line));
    LineRuns(t, relaxed, g, buf, v.head, FirstLineAt(v.parts, line));
    LineCalls(g, v.head);
    var g' := PartsRun(t, relaxed, LineRegs(g, v.head), buf, from, v.parts, line);
    LastLine(t, relaxed, g', buf, line, end);
    FinishesIs(FreshRun(t, relaxed, garbage, buf), v, end);
  }

  lemma FinishesIs(r: Ran, v: View, end: nat)
    requires r.cs == FIRST_FINAL && r.p == end
    requires r.regs.calls == HeadCalls(v.head) + PartCalls(v.parts) + [HeaderDone(end)]
    ensures Finishes(r, v, end)
  {
  }
}
