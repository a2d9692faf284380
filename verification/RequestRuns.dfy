/**
 Whole runs of the incremental parser on a request.

 The invariant `Holds` ties the parser's state, registers and callbacks to a view of the bytes read so far; at the
 end the callbacks are exactly the parts of a view that accounts for every byte up to the body.
 */
module RequestRuns {
  import opened Prelude
  import opened TableSearch
  import opened ParserEngine
  import opened RequestTable
  import opened RequestText

  // ---- The invariant, state by state ----

  ghost predicate InMethod(cs: nat, g: Regs, buf: string, p: nat)
    requires p <= |buf|
  {
    && g.calls == []
    && (cs == 1 ==> p == 0)
    && (cs != 1 ==> g.mark == 0 && p == if cs == 2 then 1 else cs - 173)
    && forall i :: 0 <= i < p ==> MethodByte(Signed(buf[i]))
  }

  ghost predicate InStart(cs: nat, g: Regs, buf: string, p: nat, h: Head)
    requires p <= |buf|
  {
    && MethodText(buf, h.methodLen) && g.calls == MethodCalls(h)
    && (cs == 3 ==> p == h.methodLen + 1)
    && (cs == 174 ==> h.methodLen + 2 < p && buf[p - 1] == ':' && SchemeText(buf, h.methodLen + 1, p - 1))
  }

  ghost predicate InPath(cs: nat, g: Regs, buf: string, p: nat, h: Head, relaxed: bool)
    requires p <= |buf|
  {
    && StartText(buf, h) && g.calls == MethodCalls(h) && g.mark == h.uriStart
    && g.mark < p && Without(buf, g.mark, p, PATH_ENDS)
    && (Bracketed(buf, g.mark, p) || (!LiteralState(cs) && Reading(Phase(cs), buf, g.mark, p, false, relaxed)))
    && (cs == 173 ==> h.uriStart == h.methodLen + 1 && SchemeText(buf, g.mark, p))
  }

  ghost predicate InQuery(cs: nat, g: Regs, buf: string, p: nat, h: Head, relaxed: bool)
    requires p <= |buf|
  {
    && PathText(buf, h, relaxed) && g.calls == PathCalls(h) && g.mark == h.uriStart
    && PathEnd(h) + 1 <= p && buf[PathEnd(h)] == '?'
    && Reading(Phase(cs), buf, PathEnd(h) + 1, p, true, relaxed)
    && (cs == 29 ==> p == PathEnd(h) + 1)
    && (cs != 29 ==> g.queryStart == PathEnd(h) + 1 < p && Without(buf, g.queryStart, p, TEXT_ENDS))
  }

  ghost predicate InFragment(cs: nat, g: Regs, buf: string, p: nat, h: Head, relaxed: bool)
    requires p <= |buf|
  {
    && UriText(buf, h, relaxed) && h.fragment == None && g.calls == UriCalls(h)
    && UriEnd(h) + 1 <= p && buf[UriEnd(h)] == '#'
    && Reading(Phase(cs), buf, UriEnd(h) + 1, p, true, relaxed)
    && (cs == 20 ==> p == UriEnd(h) + 1)
    && (cs != 20 ==> g.mark == UriEnd(h) + 1 < p && Without(buf, g.mark, p, TEXT_ENDS))
  }

  ghost predicate InVersion(cs: nat, g: Regs, buf: string, p: nat, h: Head, relaxed: bool)
    requires p <= |buf|
  {
    && TargetText(buf, h, relaxed) && g.calls == TargetCalls(h) && 4 <= cs
    && p == TargetEnd(h) + 1 + (cs - 4) && buf[TargetEnd(h)] == ' '
    && (cs != 4 ==> g.mark == TargetEnd(h) + 1)
    && (forall i :: 0 <= i < 7 && i < cs - 4 ==> buf[TargetEnd(h) + 1 + i] == VERSION_TEXT[i])
    && (cs == 12 ==> buf[p - 1] == '0' || buf[p - 1] == '1')
  }

  /** Header lines behind callbacks `base` and a line that ends at `from`. */
  ghost predicate InHeaders(cs: nat, g: Regs, buf: string, p: nat, base: seq<Call>, from: nat, parts: seq<Part>)
    requires p <= |buf|
  {
    && PartsText(buf, from, parts) && g.calls == base + PartCalls(parts)
    && (cs == 13 ==> LineBreak(buf, PartsEnd(from, parts), p))
    && (cs == 17 ==> p == PartsEnd(from, parts) + 1 && buf[p - 1] == '\r')
    && (cs == 18 ==> p == g.fieldStart + 1 && buf[p - 1] == '\r')
    && (cs == 14 || cs == 18 ==>
          g.fieldStart < p && LineBreak(buf, PartsEnd(from, parts), g.fieldStart) && NameText(buf, g.fieldStart, p))
    && (cs == 15 || cs == 16 ==> g.fieldLen > 0 && LineBreak(buf, PartsEnd(from, parts), g.fieldStart))
    && (cs == 15 ==> PartText(buf, Part(g.fieldStart, g.fieldLen, p, 0)))
    && (cs == 16 ==>
          g.mark < p && PartText(buf, Part(g.fieldStart, g.fieldLen, g.mark, p - g.mark)))
  }

  /** The end of the headers: two line breaks behind the last line's content. */
  ghost predicate AtBody(g: Regs, buf: string, p: nat, base: seq<Call>, from: nat, parts: seq<Part>) {
    && PartsText(buf, from, parts) && g.calls == base + PartCalls(parts) + [HeaderDone(p)] && g.bodyStart == p
    && exists line :: LineBreak(buf, PartsEnd(from, parts), line) && LineBreak(buf, line, p)
  }

  predicate RequestState(s: nat) {
    1 <= s <= 193
  }

  ghost predicate Holds(cs: nat, g: Regs, buf: string, p: nat, v: View, relaxed: bool) {
    && !g.xmlSent && !g.jsonSent && p <= |buf|
    && if MethodState(cs) then InMethod(cs, g, buf, p)
       else if StartState(cs) then InStart(cs, g, buf, p, v.head)
       else if QueryState(cs) then InQuery(cs, g, buf, p, v.head, relaxed)
       else if FragmentState(cs) then InFragment(cs, g, buf, p, v.head, relaxed)
       else if VersionState(cs) then InVersion(cs, g, buf, p, v.head, relaxed)
       else if HeaderState(cs) then
         && HeadText(buf, v.head, relaxed)
         && InHeaders(cs, g, buf, p, HeadCalls(v.head), VersionEnd(v.head), v.parts)
       else InPath(cs, g, buf, p, v.head, relaxed)
  }

  /** A finished request: every byte before the body belongs to the view or to its two last line breaks. */
  ghost predicate Completed(g: Regs, buf: string, p: nat, v: View, relaxed: bool) {
    HeadText(buf, v.head, relaxed) && AtBody(g, buf, p, HeadCalls(v.head), VersionEnd(v.head), v.parts)
  }

  /** The socket formats, seen only as far as the callbacks go. */
  ghost predicate SocketHolds(g: Regs, p: nat) {
    g.mark <= p && forall k :: 0 <= k < |g.calls| ==>
      g.calls[k].Element? && g.calls[k].kind == PATH && 0 <= g.calls[k].len && g.calls[k].start + g.calls[k].len <= p
  }

  // ---- One step of each group of states ----

  lemma ActsShort(g: Regs, codes: seq<nat>, p: nat, pe: nat)
    requires |codes| <= 3 && DONE !in codes
    ensures Acts(g, codes, 0, p, pe) ==
            (if |codes| == 0 then g else if |codes| == 1 then Act(g, codes[0], p)
             else if |codes| == 2 then Act(Act(g, codes[0], p), codes[1], p)
             else Act(Act(Act(g, codes[0], p), codes[1], p), codes[2], p), false)
  {
    if |codes| == 1 {
      assert Acts(Act(g, codes[0], p), codes, 1, p, pe) == (Act(g, codes[0], p), false);
    } else if |codes| == 2 {
      var g1 := Act(g, codes[0], p);
      assert Acts(Act(g1, codes[1], p), codes, 2, p, pe) == (Act(g1, codes[1], p), false);
    } else if |codes| == 3 {
      var g1 := Act(g, codes[0], p);
      var g2 := Act(g1, codes[1], p);
      assert Acts(Act(g2, codes[2], p), codes, 3, p, pe) == (Act(g2, codes[2], p), false);
      assert Acts(g2, codes, 2, p, pe) == (Act(g2, codes[2], p), false);
    }
  }

  /** What a transition of a request state leaves: a finished request, nothing, or a state that holds again. */
  ghost predicate StepKeeps(e: Edge, g: Regs, buf: string, p: nat, v: View, relaxed: bool) {
    var r := Acts(g, e.actions, 0, p, |buf|);
    if e.target == FIRST_FINAL then
      r.1 && Completed(r.0, buf, p + 1, v, relaxed)
    else
      && !r.1
      && (e == FAIL || (SocketState(e.target) && SocketHolds(r.0, p + 1))
          || (RequestState(e.target) && Holds(e.target, r.0, buf, p + 1, v, relaxed)))
  }

  lemma StepMethod(cs: nat, g: Regs, buf: string, p: nat, v: View, relaxed: bool) returns (v': View)
    requires MethodState(cs) && Holds(cs, g, buf, p, v, relaxed) && p < |buf| && Bytes(buf)
    ensures StepKeeps(MethodDelta(cs, Signed(buf[p])), g, buf, p, v', relaxed)
  {
    var e := MethodDelta(cs, Signed(buf[p]));
    ActsShort(g, e.actions, p, |buf|);
    v' := View(Head(p, 0, 0, None, None), []);
  }

  lemma LettersInSchemes(c: int)
    ensures Letter(c) ==> SchemeByte(c)
  {
  }

  /** Into a path by its first byte, or past an empty one. */
  lemma StartPhases(cs: nat, c: int, relaxed: bool)
    requires StartState(cs)
    ensures var e := StartDelta(cs, c, relaxed);
      || e == FAIL || (e.actions == [MARK, PATH, URI] && ((c == 32 && e.target == 4) || (c == 35 && e.target == 20)))
      || (e == Edge(29, [MARK, PATH]) && c == 63)
      || (e.actions == [MARK] && PathState(e.target) && !LiteralState(e.target)
          && (e.target == 173 ==> cs == 3 && Letter(c)) && PhaseStep(0, c, Phase(e.target), false, relaxed)
          && c != 32 && c != 35 && c != 63 && c != 0 && c != 10 && c != 13)
  {
  }

  lemma StepStart(cs: nat, g: Regs, buf: string, p: nat, v: View, relaxed: bool) returns (v': View)
    requires StartState(cs) && Holds(cs, g, buf, p, v, relaxed) && p < |buf| && Bytes(buf)
    ensures StepKeeps(StartDelta(cs, Signed(buf[p]), relaxed), g, buf, p, v', relaxed)
  {
    var e := StartDelta(cs, Signed(buf[p]), relaxed);
    StartPhases(cs, Signed(buf[p]), relaxed);
    ReadingBegins(buf, p, false, relaxed);
    v' := View(Head(v.head.methodLen, p, 0, None, None), []);
    hide StartDelta, Phase, PhaseStep;
    if e.actions == [MARK] {
      StartsPath(cs, g, buf, p, v, e, relaxed);
    } else if e != FAIL {
      EmptyPath(cs, g, buf, p, v, e, relaxed);
    }
  }

  lemma StartsPath(cs: nat, g: Regs, buf: string, p: nat, v: View, e: Edge, relaxed: bool)
    requires StartState(cs) && Holds(cs, g, buf, p, v, relaxed) && p < |buf| && Bytes(buf)
    requires e.actions == [MARK] && PathState(e.target) && !LiteralState(e.target)
    requires var c := Signed(buf[p]);
      && (e.target == 173 ==> cs == 3 && Letter(c)) && PhaseStep(0, c, Phase(e.target), false, relaxed)
      && c != 32 && c != 35 && c != 63 && c != 0 && c != 10 && c != 13
    ensures StepKeeps(e, g, buf, p, View(Head(v.head.methodLen, p, 0, None, None), []), relaxed)
  {
    LettersInSchemes(Signed(buf[p]));
    ReadingBegins(buf, p, false, relaxed);
    hide PhaseStep, Reading, Phase, MethodText, SchemeByte, Letter;
    ReadingGoesOn(0, Phase(e.target), buf, p, p, false, relaxed);
    ActsShort(g, e.actions, p, |buf|);
  }

  lemma EmptyPath(cs: nat, g: Regs, buf: string, p: nat, v: View, e: Edge, relaxed: bool)
    requires StartState(cs) && Holds(cs, g, buf, p, v, relaxed) && p < |buf| && Bytes(buf)
    requires var c := Signed(buf[p]);
      || (e.actions == [MARK, PATH, URI] && ((c == 32 && e.target == 4) || (c == 35 && e.target == 20)))
      || (e == Edge(29, [MARK, PATH]) && c == 63)
    ensures StepKeeps(e, g, buf, p, View(Head(v.head.methodLen, p, 0, None, None), []), relaxed)
  {
    ReadingBegins(buf, p, false, relaxed);
    ReadingBegins(buf, p + 1, true, relaxed);
    assert Readable(buf, p, p, false, relaxed) && Phase(20) == 0 && Phase(29) == 0;
    hide MethodText, SchemeText, Readable, Phase, Bracketed;
    ActsShort(g, e.actions, p, |buf|);
  }

  /** All that matters of the many transitions between path states. */
  predicate PathEdge(cs: nat, c: int, e: Edge) {
    || e == FAIL
    || (c == 32 && e == Edge(4, [PATH, URI])) || (c == 35 && e == Edge(20, [PATH, URI]))
    || (c == 63 && e == Edge(29, [PATH]))
    || (e.actions == [] && c != 32 && c != 35 && c != 63
        && c != 0 && c != 10 && c != 13
        && ((PathState(e.target) && e.target != 173)
            || (cs == 173 && e.target == 173 && SchemeByte(c)) || (cs == 173 && e.target == 174 && c == 58)))
  }

  /** Outside of address literals a path goes on with a readable byte, or a bracket opens a literal. */
  predicate PathSpells(cs: nat, c: int, e: Edge, relaxed: bool) {
    if e.actions == [] then
      e == FAIL || e.target == 174 || (c == 91 && Phase(cs) == 0)
      || (!LiteralState(e.target) && PhaseStep(Phase(cs), c, Phase(e.target), false, relaxed))
    else
      Phase(cs) == 0
  }

  lemma PathEdges(cs: nat, c: int, relaxed: bool)
    requires PathState(cs) && !LiteralState(cs)
    ensures PathEdge(cs, c, PathDelta(cs, c, relaxed))
  {
  }

  lemma PathsSpell(cs: nat, c: int, relaxed: bool)
    requires PathState(cs) && !LiteralState(cs)
    ensures PathSpells(cs, c, PathDelta(cs, c, relaxed), relaxed)
  {
  }

  /** The text of the path with one byte more. */
  lemma PathReads(cs: nat, buf: string, from: nat, p: nat, e: Edge, relaxed: bool)
    requires p < |buf| && Bytes(buf) && from <= p && e != FAIL && e.actions == [] && e.target != 174
    requires LiteralState(cs) || PathSpells(cs, Signed(buf[p]), e, relaxed)
    requires Bracketed(buf, from, p) || (!LiteralState(cs) && Reading(Phase(cs), buf, from, p, false, relaxed))
    ensures Bracketed(buf, from, p + 1) ||
            (!LiteralState(e.target) && Reading(Phase(e.target), buf, from, p + 1, false, relaxed))
  {
    hide Reading, PhaseStep;
    if i :| from <= i < p && i < |buf| && buf[i] == '[' {
      assert from <= i < p + 1 && buf[i] == '[';
    } else if Signed(buf[p]) == 91 {
      assert from <= p < p + 1 && buf[p] == '[';
    } else {
      ReadingGoesOn(Phase(cs), Phase(e.target), buf, from, p, false, relaxed);
    }
  }

  lemma PathGoesOn(cs: nat, g: Regs, buf: string, p: nat, v: View, e: Edge, relaxed: bool)
    requires PathState(cs) && Holds(cs, g, buf, p, v, relaxed) && p < |buf| && Bytes(buf)
    requires PathEdge(cs, Signed(buf[p]), e) && e.actions == []
    requires LiteralState(cs) || PathSpells(cs, Signed(buf[p]), e, relaxed)
    ensures StepKeeps(e, g, buf, p, v, relaxed)
  {
    ActsShort(g, e.actions, p, |buf|);
    if e != FAIL && e.target != 174 {
      PathReads(cs, buf, g.mark, p, e, relaxed);
    }
    hide SchemeByte, Reading, Bracketed, PathSpells, Phase;
  }

  lemma PathEnds(cs: nat, g: Regs, buf: string, p: nat, v: View, e: Edge, relaxed: bool) returns (v': View)
    requires PathState(cs) && Holds(cs, g, buf, p, v, relaxed) && p < |buf| && Bytes(buf)
    requires PathEdge(cs, Signed(buf[p]), e) && e.actions != []
    requires LiteralState(cs) || PathSpells(cs, Signed(buf[p]), e, relaxed)
    ensures StepKeeps(e, g, buf, p, v', relaxed)
  {
    assert Bracketed(buf, g.mark, p) || Readable(buf, g.mark, p, false, relaxed);
    hide MethodText, SchemeText, Readable, Bracketed, PathSpells;
    ActsShort(g, e.actions, p, |buf|);
    ReadingBegins(buf, p + 1, true, relaxed);
    v' := View(Head(v.head.methodLen, v.head.uriStart, p - v.head.uriStart, None, None), []);
  }

  lemma StepPath(cs: nat, g: Regs, buf: string, p: nat, v: View, e: Edge, relaxed: bool) returns (v': View)
    requires PathState(cs) && Holds(cs, g, buf, p, v, relaxed) && p < |buf| && Bytes(buf)
    requires PathEdge(cs, Signed(buf[p]), e)
    requires LiteralState(cs) || PathSpells(cs, Signed(buf[p]), e, relaxed)
    ensures StepKeeps(e, g, buf, p, v', relaxed)
  {
    hide Holds, StepKeeps, PathEdge, PathSpells;
    if e.actions == [] {
      PathGoesOn(cs, g, buf, p, v, e, relaxed);
      v' := v;
    } else {
      v' := PathEnds(cs, g, buf, p, v, e, relaxed);
    }
  }

  lemma PathStaysPath(buf: string, h: Head, query: Option<nat>, fragment: Option<nat>, relaxed: bool)
    requires PathText(buf, h, relaxed)
    ensures var h' := h.(query := query, fragment := fragment);
      PathText(buf, h', relaxed) && PathCalls(h') == PathCalls(h) && PathEnd(h') == PathEnd(h)
  {
  }

  lemma UriStaysUri(buf: string, h: Head, fragment: Option<nat>, relaxed: bool)
    requires UriText(buf, h, relaxed)
    ensures var h' := h.(fragment := fragment);
      UriText(buf, h', relaxed) && UriCalls(h') == UriCalls(h) && UriEnd(h') == UriEnd(h)
  {
  }

  /** Query and fragment text: what the transitions do to the phase. */
  lemma TextPhases(cs: nat, c: int, relaxed: bool)
    ensures QueryState(cs) ==>
      var e := QueryDelta(cs, c, relaxed);
      if QueryState(e.target) then PhaseStep(Phase(cs), c, Phase(e.target), true, relaxed)
      else e == FAIL || Phase(cs) == 0
    ensures FragmentState(cs) ==>
      var e := FragmentDelta(cs, c, relaxed);
      if FragmentState(e.target) then PhaseStep(Phase(cs), c, Phase(e.target), true, relaxed)
      else e == FAIL || Phase(cs) == 0
  {
  }

  lemma StepQuery(cs: nat, g: Regs, buf: string, p: nat, v: View, relaxed: bool) returns (v': View)
    requires QueryState(cs) && Holds(cs, g, buf, p, v, relaxed) && p < |buf| && Bytes(buf)
    ensures StepKeeps(QueryDelta(cs, Signed(buf[p]), relaxed), g, buf, p, v', relaxed)
  {
    var e := QueryDelta(cs, Signed(buf[p]), relaxed);
    if QueryState(e.target) {
      QueryGoesOn(cs, g, buf, p, v, relaxed);
      v' := v;
    } else {
      v' := QueryEnds(cs, g, buf, p, v, relaxed);
    }
  }

  /** Query text, one byte on. */
  lemma QueryNext(cs: nat, next: nat, g: Regs, g': Regs, buf: string, p: nat, h: Head, relaxed: bool)
    requires QueryState(cs) && p < |buf| && Bytes(buf) && InQuery(cs, g, buf, p, h, relaxed)
    requires QueryState(next) && next != 29 && PhaseStep(Phase(cs), Signed(buf[p]), Phase(next), true, relaxed)
    requires g' == if cs == 29 then g.(queryStart := p) else g
    requires buf[p] !in TEXT_ENDS
    ensures InQuery(next, g', buf, p + 1, h, relaxed)
  {
    hide PathText, PathCalls, Reading, PhaseStep, PathEnd;
    ReadingGoesOn(Phase(cs), Phase(next), buf, PathEnd(h) + 1, p, true, relaxed);
    hide Phase, TEXT_ENDS;
  }

  lemma QueryGoesOn(cs: nat, g: Regs, buf: string, p: nat, v: View, relaxed: bool)
    requires QueryState(cs) && Holds(cs, g, buf, p, v, relaxed) && p < |buf| && Bytes(buf)
    requires QueryState(QueryDelta(cs, Signed(buf[p]), relaxed).target)
    ensures StepKeeps(QueryDelta(cs, Signed(buf[p]), relaxed), g, buf, p, v, relaxed)
  {
    var e := QueryDelta(cs, Signed(buf[p]), relaxed);
    TextPhases(cs, Signed(buf[p]), relaxed);
    hide InQuery, PhaseStep, Phase;
    ActsShort(g, e.actions, p, |buf|);
    QueryNext(cs, e.target, g, Acts(g, e.actions, 0, p, |buf|).0, buf, p, v.head, relaxed);
  }

  /** The query closed: its text, and the calls for it and for the URI. */
  lemma QueryCloses(cs: nat, g: Regs, buf: string, p: nat, h: Head, relaxed: bool) returns (h': Head)
    requires QueryState(cs) && p <= |buf| && InQuery(cs, g, buf, p, h, relaxed) && Phase(cs) == 0
    ensures h' == h.(query := Some(p - PathEnd(h) - 1), fragment := None)
    ensures UriText(buf, h', relaxed) && UriEnd(h') == p && h'.uriStart == g.mark
    ensures (if cs == 29 then p else g.queryStart) == PathEnd(h) + 1 <= p
    ensures UriCalls(h') == g.calls + [Element(QUERY, PathEnd(h) + 1, p - PathEnd(h) - 1)]
                            + [Element(URI, g.mark, p - g.mark)]
  {
    h' := h.(query := Some(p - PathEnd(h) - 1), fragment := None);
    PathStaysPath(buf, h, h'.query, None, relaxed);
    hide PathText, PathCalls, Readable, Phase;
  }

  lemma UriCloses(h: Head, buf: string, relaxed: bool)
    requires UriText(buf, h, relaxed) && h.fragment == None
    ensures TargetText(buf, h, relaxed) && TargetEnd(h) == UriEnd(h) && TargetCalls(h) == UriCalls(h)
  {
    assert UriCalls(h) + [] == UriCalls(h);
    hide UriText, UriCalls, UriEnd;
  }

  /** Behind a reported URI: the version after a space, a fragment after '#'. */
  lemma AfterUri(target: nat, g: Regs, buf: string, p: nat, h: Head, relaxed: bool)
    requires p < |buf| && !g.xmlSent && !g.jsonSent && UriText(buf, h, relaxed) && h.fragment == None
    requires g.calls == UriCalls(h) && UriEnd(h) == p
    requires (target == 4 && buf[p] == ' ') || (target == 20 && buf[p] == '#')
    ensures Holds(target, g, buf, p + 1, View(h, []), relaxed)
  {
    UriCloses(h, buf, relaxed);
    ReadingBegins(buf, p + 1, true, relaxed);
    hide UriText, UriEnd, UriCalls, TargetText, TargetEnd, TargetCalls, Reading;
  }

  /** Behind a reported fragment only the version can follow. */
  lemma AfterTarget(g: Regs, buf: string, p: nat, h: Head, relaxed: bool)
    requires p < |buf| && !g.xmlSent && !g.jsonSent && TargetText(buf, h, relaxed)
    requires g.calls == TargetCalls(h) && TargetEnd(h) == p && buf[p] == ' '
    ensures Holds(4, g, buf, p + 1, View(h, []), relaxed)
  {
    hide TargetText, TargetEnd, TargetCalls;
  }

  /** The way out of query text reports the query and the URI in one transition. */
  lemma QueryLeaves(cs: nat, g: Regs, c: int, p: nat, pe: nat, relaxed: bool)
    requires QueryState(cs) && !QueryState(QueryDelta(cs, c, relaxed).target)
    ensures var e := QueryDelta(cs, c, relaxed);
      var r := Acts(g, e.actions, 0, p, pe);
      var from := if cs == 29 then p else g.queryStart;
      && !r.1
      && (e == FAIL || (Phase(cs) == 0 && ((e.target == 4 && c == 32) || (e.target == 20 && c == 35))
                        && r.0 == g.(queryStart := from, calls := g.calls + [Element(QUERY, from, p - from)]
                                                                          + [Element(URI, g.mark, p - g.mark)])))
  {
    ActsShort(g, QueryDelta(cs, c, relaxed).actions, p, pe);
  }

  lemma QueryEnds(cs: nat, g: Regs, buf: string, p: nat, v: View, relaxed: bool) returns (v': View)
    requires QueryState(cs) && Holds(cs, g, buf, p, v, relaxed) && p < |buf| && Bytes(buf)
    requires !QueryState(QueryDelta(cs, Signed(buf[p]), relaxed).target)
    ensures StepKeeps(QueryDelta(cs, Signed(buf[p]), relaxed), g, buf, p, v', relaxed)
  {
    hide InMethod, InPath, InStart, InFragment, InVersion, InHeaders, HeadText, Completed, Acts, QueryDelta;
    var e := QueryDelta(cs, Signed(buf[p]), relaxed);
    QueryLeaves(cs, g, Signed(buf[p]), p, |buf|, relaxed);
    v' := v;
    if e != FAIL {
      var h' := QueryCloses(cs, g, buf, p, v.head, relaxed);
      v' := View(h', []);
      hide InQuery, UriText, UriEnd, UriCalls, PathEnd;
      AfterUri(e.target, Acts(g, e.actions, 0, p, |buf|).0, buf, p, h', relaxed);
      hide Holds;
    }
  }

  lemma StepFragment(cs: nat, g: Regs, buf: string, p: nat, v: View, relaxed: bool) returns (v': View)
    requires FragmentState(cs) && Holds(cs, g, buf, p, v, relaxed) && p < |buf| && Bytes(buf)
    ensures StepKeeps(FragmentDelta(cs, Signed(buf[p]), relaxed), g, buf, p, v', relaxed)
  {
    var e := FragmentDelta(cs, Signed(buf[p]), relaxed);
    if FragmentState(e.target) {
      FragmentGoesOn(cs, g, buf, p, v, relaxed);
      v' := v;
    } else {
      v' := FragmentEnds(cs, g, buf, p, v, relaxed);
    }
  }

  /** Fragment text, one byte on. */
  lemma FragmentNext(cs: nat, next: nat, g: Regs, g': Regs, buf: string, p: nat, h: Head, relaxed: bool)
    requires FragmentState(cs) && p < |buf| && Bytes(buf) && InFragment(cs, g, buf, p, h, relaxed)
    requires FragmentState(next) && next != 20 && PhaseStep(Phase(cs), Signed(buf[p]), Phase(next), true, relaxed)
    requires g' == if cs == 20 then g.(mark := p) else g
    requires buf[p] !in TEXT_ENDS
    ensures InFragment(next, g', buf, p + 1, h, relaxed)
  {
    hide UriText, UriCalls, Reading, PhaseStep, UriEnd;
    ReadingGoesOn(Phase(cs), Phase(next), buf, UriEnd(h) + 1, p, true, relaxed);
    hide Phase, TEXT_ENDS;
  }

  lemma FragmentGoesOn(cs: nat, g: Regs, buf: string, p: nat, v: View, relaxed: bool)
    requires FragmentState(cs) && Holds(cs, g, buf, p, v, relaxed) && p < |buf| && Bytes(buf)
    requires FragmentState(FragmentDelta(cs, Signed(buf[p]), relaxed).target)
    ensures StepKeeps(FragmentDelta(cs, Signed(buf[p]), relaxed), g, buf, p, v, relaxed)
  {
    var e := FragmentDelta(cs, Signed(buf[p]), relaxed);
    TextPhases(cs, Signed(buf[p]), relaxed);
    hide InFragment, PhaseStep, Phase;
    ActsShort(g, e.actions, p, |buf|);
    FragmentNext(cs, e.target, g, Acts(g, e.actions, 0, p, |buf|).0, buf, p, v.head, relaxed);
  }

  /** The fragment closed: its text, and the call for it; it may still be empty. */
  lemma FragmentCloses(cs: nat, g: Regs, buf: string, p: nat, h: Head, relaxed: bool) returns (h': Head)
    requires FragmentState(cs) && p <= |buf| && InFragment(cs, g, buf, p, h, relaxed) && Phase(cs) == 0
    ensures h' == h.(fragment := Some(p - UriEnd(h) - 1))
    ensures TargetText(buf, h', relaxed) && TargetEnd(h') == p
    ensures (if cs == 20 then p else g.mark) == UriEnd(h) + 1 <= p
    ensures TargetCalls(h') == g.calls + [Element(FRAGMENT, UriEnd(h) + 1, p - UriEnd(h) - 1)]
  {
    h' := h.(fragment := Some(p - UriEnd(h) - 1));
    UriStaysUri(buf, h, h'.fragment, relaxed);
    hide UriText, UriCalls, UriEnd, Readable, Phase;
  }

  lemma FragmentEnds(cs: nat, g: Regs, buf: string, p: nat, v: View, relaxed: bool) returns (v': View)
    requires FragmentState(cs) && Holds(cs, g, buf, p, v, relaxed) && p < |buf| && Bytes(buf)
    requires !FragmentState(FragmentDelta(cs, Signed(buf[p]), relaxed).target)
    ensures StepKeeps(FragmentDelta(cs, Signed(buf[p]), relaxed), g, buf, p, v', relaxed)
  {
    var e := FragmentDelta(cs, Signed(buf[p]), relaxed);
    TextPhases(cs, Signed(buf[p]), relaxed);
    v' := v;
    ActsShort(g, e.actions, p, |buf|);
    if e != FAIL {
      var h' := FragmentCloses(cs, g, buf, p, v.head, relaxed);
      v' := View(h', []);
      hide InFragment, PhaseStep, UriEnd, TargetText, TargetEnd, TargetCalls;
      AfterTarget(Acts(g, e.actions, 0, p, |buf|).0, buf, p, h', relaxed);
      hide Holds;
    }
  }

  /** Inside "HTTP/1.x": one more byte of it. */
  lemma VersionGoesOn(cs: nat, g: Regs, buf: string, p: nat, h: Head, relaxed: bool)
    requires 4 <= cs <= 11 && p < |buf| && Bytes(buf) && InVersion(cs, g, buf, p, h, relaxed)
    ensures var e := VersionDelta(cs, Signed(buf[p]));
      var r := Acts(g, e.actions, 0, p, |buf|);
      && !r.1 && r.0.xmlSent == g.xmlSent && r.0.jsonSent == g.jsonSent
      && (e == FAIL || (e.target == cs + 1 && InVersion(cs + 1, r.0, buf, p + 1, h, relaxed)))
  {
    hide TargetText, TargetCalls, TargetEnd;
    var e := VersionDelta(cs, Signed(buf[p]));
    ActsShort(g, e.actions, p, |buf|);
    assert p == TargetEnd(h) + 1 + (cs - 4);
  }

  /** Behind the version: its callback, and the line break begins. */
  lemma VersionEnds(g: Regs, buf: string, p: nat, h: Head, relaxed: bool)
    requires p < |buf| && Bytes(buf) && InVersion(12, g, buf, p, h, relaxed)
    ensures var e := VersionDelta(12, Signed(buf[p]));
      var r := Acts(g, e.actions, 0, p, |buf|);
      && !r.1 && r.0.xmlSent == g.xmlSent && r.0.jsonSent == g.jsonSent
      && (e == FAIL || ((e.target == 13 || e.target == 17) && HeadText(buf, h, relaxed)
                        && InHeaders(e.target, r.0, buf, p + 1, HeadCalls(h), VersionEnd(h), [])))
  {
    hide TargetText, TargetCalls, TargetEnd;
    var e := VersionDelta(12, Signed(buf[p]));
    ActsShort(g, e.actions, p, |buf|);
    var from := TargetEnd(h) + 1;
    assert buf[from..from + 7] == VERSION_TEXT by {
      assert forall i :: 0 <= i < 7 ==> buf[from + i] == VERSION_TEXT[i];
    }
    assert HeadCalls(h) + PartCalls([]) == HeadCalls(h);
  }

  lemma StepVersion(cs: nat, g: Regs, buf: string, p: nat, v: View, relaxed: bool) returns (v': View)
    requires VersionState(cs) && Holds(cs, g, buf, p, v, relaxed) && p < |buf| && Bytes(buf)
    ensures StepKeeps(VersionDelta(cs, Signed(buf[p])), g, buf, p, v', relaxed)
  {
    hide InVersion, InHeaders, HeadText, HeadCalls, Acts;
    v' := View(v.head, []);
    if cs == 12 {
      VersionEnds(g, buf, p, v.head, relaxed);
    } else {
      VersionGoesOn(cs, g, buf, p, v.head, relaxed);
    }
  }

  lemma PartsExtend(buf: string, base: seq<Call>, from: nat, parts: seq<Part>, f: Part)
    requires PartsText(buf, from, parts) && PartText(buf, f) && LineBreak(buf, PartsEnd(from, parts), f.nameStart)
    ensures PartsText(buf, from, parts + [f])
    ensures base + PartCalls(parts + [f]) == base + PartCalls(parts) + [PartCall(f)]
    ensures PartsEnd(from, parts + [f]) == ValueEnd(f)
  {
    assert (parts + [f])[..|parts|] == parts;
    assert PartCalls(parts + [f]) == PartCalls(parts) + [PartCall(f)];
  }

  /** A line start or the LF behind a CR: a name begins, a line break ends, or the headers are complete. */
  lemma StepLine(cs: nat, g: Regs, buf: string, p: nat, base: seq<Call>, from: nat, parts: seq<Part>)
    requires cs == 13 || cs == 17
    requires p < |buf| && Bytes(buf) && InHeaders(cs, g, buf, p, base, from, parts) && !g.xmlSent && !g.jsonSent
    ensures var e := HeaderDelta(cs, Signed(buf[p]));
      if e.target == FIRST_FINAL then
        var r := Acts(g, e.actions, 0, p, |buf|); r.1 && AtBody(r.0, buf, p + 1, base, from, parts)
      else
        var r := Acts(g, e.actions, 0, p, |buf|);
        !r.1 && (e == FAIL || InHeaders(e.target, r.0, buf, p + 1, base, from, parts))
  {
    var e := HeaderDelta(cs, Signed(buf[p]));
    if e.target == FIRST_FINAL {
      ActsDone(g, e.actions, p, |buf|);
      assert LineBreak(buf, PartsEnd(from, parts), p) && LineBreak(buf, p, p + 1);
    } else {
      ActsShort(g, e.actions, p, |buf|);
    }
  }

  /** Inside a name, or behind the CR that may open the last line break. */
  lemma StepName(cs: nat, g: Regs, buf: string, p: nat, base: seq<Call>, from: nat, parts: seq<Part>)
    requires cs == 14 || cs == 18
    requires p < |buf| && Bytes(buf) && InHeaders(cs, g, buf, p, base, from, parts) && !g.xmlSent && !g.jsonSent
    ensures var e := HeaderDelta(cs, Signed(buf[p]));
      if e.target == FIRST_FINAL then
        var r := Acts(g, e.actions, 0, p, |buf|); r.1 && AtBody(r.0, buf, p + 1, base, from, parts)
      else
        var r := Acts(g, e.actions, 0, p, |buf|);
        !r.1 && (e == FAIL || InHeaders(e.target, r.0, buf, p + 1, base, from, parts))
  {
    var e := HeaderDelta(cs, Signed(buf[p]));
    if e.target == FIRST_FINAL {
      ActsDone(g, e.actions, p, |buf|);
      assert LineBreak(buf, PartsEnd(from, parts), p - 1) && LineBreak(buf, p - 1, p + 1);
    } else {
      ActsShort(g, e.actions, p, |buf|);
    }
  }

  /** Behind the colon: a line break reports an empty value. */
  lemma BlankEnds(g: Regs, buf: string, p: nat, base: seq<Call>, from: nat, parts: seq<Part>)
    returns (parts': seq<Part>)
    requires p < |buf| && Bytes(buf) && InHeaders(15, g, buf, p, base, from, parts)
    requires buf[p] == '\r' || buf[p] == '\n'
    ensures var e := HeaderDelta(15, Signed(buf[p]));
      InHeaders(e.target, Acts(g, e.actions, 0, p, |buf|).0, buf, p + 1, base, from, parts')
  {
    hide PartsText, PartCalls, TokenByte;
    var f := Part(g.fieldStart, g.fieldLen, p, 0);
    PartsExtend(buf, base, from, parts, f);
    parts' := parts + [f];
    ActsShort(g, [START_VALUE, WRITE_VALUE], p, |buf|);
  }

  /** Behind the colon: more blanks, the first byte of a value, or an empty value. */
  lemma StepBlank(g: Regs, buf: string, p: nat, base: seq<Call>, from: nat, parts: seq<Part>)
    returns (parts': seq<Part>)
    requires p < |buf| && Bytes(buf) && InHeaders(15, g, buf, p, base, from, parts)
    ensures var e := HeaderDelta(15, Signed(buf[p]));
      var r := Acts(g, e.actions, 0, p, |buf|);
      !r.1 && e.target != FIRST_FINAL && (e == FAIL || InHeaders(e.target, r.0, buf, p + 1, base, from, parts'))
  {
    var e := HeaderDelta(15, Signed(buf[p]));
    ActsShort(g, e.actions, p, |buf|);
    if buf[p] == '\r' || buf[p] == '\n' {
      parts' := BlankEnds(g, buf, p, base, from, parts);
      hide InHeaders, Acts;
    } else {
      parts' := parts;
      hide PartsText, PartCalls, TokenByte, PartsEnd, LineBreak;
    }
  }

  /** Inside a value. */
  lemma StepValue(g: Regs, buf: string, p: nat, base: seq<Call>, from: nat, parts: seq<Part>)
    returns (parts': seq<Part>)
    requires p < |buf| && Bytes(buf) && InHeaders(16, g, buf, p, base, from, parts)
    ensures var e := HeaderDelta(16, Signed(buf[p]));
      var r := Acts(g, e.actions, 0, p, |buf|);
      !r.1 && e.target != FIRST_FINAL && (e == FAIL || InHeaders(e.target, r.0, buf, p + 1, base, from, parts'))
  {
    hide PartsText, PartCalls, TokenByte;
    var e := HeaderDelta(16, Signed(buf[p]));
    ActsShort(g, e.actions, p, |buf|);
    parts' := parts;
    if e.target == 13 || e.target == 17 {
      var f := Part(g.fieldStart, g.fieldLen, g.mark, p - g.mark);
      PartsExtend(buf, base, from, parts, f);
      parts' := parts + [f];
    }
  }

  lemma ActsDone(g: Regs, codes: seq<nat>, p: nat, pe: nat)
    requires codes == [DONE] || codes == [START_FIELD, DONE]
    ensures Acts(g, codes, 0, p, pe) ==
            (Finish(if |codes| == 1 then g else Act(g, START_FIELD, p), p, pe), true)
  {
    if |codes| == 2 {
      assert Acts(Act(g, START_FIELD, p), codes, 1, p, pe) == (Finish(Act(g, START_FIELD, p), p, pe), true);
    }
  }

  // ---- Whole runs ----

  /** One byte in any state of a request. */
  lemma StepHolds(t: Tables, relaxed: bool, cs: nat, g: Regs, buf: string, p: nat, v: View) returns (v': View)
    requires IsRequestTable(t) && RequestState(cs)
    requires p < |buf| && Bytes(buf) && Holds(cs, g, buf, p, v, relaxed)
    ensures StepKeeps(Taken(t, relaxed, cs, buf[p]), g, buf, p, v', relaxed)
  {
    hide StepKeeps, Holds, PathSpells;
    var e := Taken(t, relaxed, cs, buf[p]);
    if LiteralState(cs) {
      v' := StepPath(cs, g, buf, p, v, e, relaxed);
    } else {
      TakenIsDelta(t, relaxed, cs, buf[p]);
      if MethodState(cs) {
        v' := StepMethod(cs, g, buf, p, v, relaxed);
      } else if StartState(cs) {
        v' := StepStart(cs, g, buf, p, v, relaxed);
      } else if QueryState(cs) {
        v' := StepQuery(cs, g, buf, p, v, relaxed);
      } else if FragmentState(cs) {
        v' := StepFragment(cs, g, buf, p, v, relaxed);
      } else if VersionState(cs) {
        v' := StepVersion(cs, g, buf, p, v, relaxed);
      } else if HeaderState(cs) {
        v' := StepHeader(cs, g, buf, p, v, relaxed);
      } else {
        PathEdges(cs, Signed(buf[p]), relaxed);
        PathsSpell(cs, Signed(buf[p]), relaxed);
        v' := StepPath(cs, g, buf, p, v, e, relaxed);
      }
    }
  }

  lemma StepHeader(cs: nat, g: Regs, buf: string, p: nat, v: View, relaxed: bool) returns (v': View)
    requires HeaderState(cs) && Holds(cs, g, buf, p, v, relaxed) && p < |buf| && Bytes(buf)
    ensures StepKeeps(HeaderDelta(cs, Signed(buf[p])), g, buf, p, v', relaxed)
  {
    hide HeadText, InHeaders, AtBody;
    var base, from := HeadCalls(v.head), VersionEnd(v.head);
    v' := v;
    if cs == 13 || cs == 17 {
      StepLine(cs, g, buf, p, base, from, v.parts);
    } else if cs == 14 || cs == 18 {
      StepName(cs, g, buf, p, base, from, v.parts);
    } else if cs == 15 {
      var parts := StepBlank(g, buf, p, base, from, v.parts);
      v' := View(v.head, parts);
    } else {
      var parts := StepValue(g, buf, p, base, from, v.parts);
      v' := View(v.head, parts);
    }
    FlagsStay(g, HeaderDelta(cs, Signed(buf[p])).actions, p, |buf|);
  }

  lemma FlagsStay(g: Regs, codes: seq<nat>, p: nat, pe: nat)
    requires codes == [DONE] || codes == [START_FIELD, DONE] ||
             (|codes| <= 3 && DONE !in codes && XML !in codes && JSON !in codes)
    ensures var r := Acts(g, codes, 0, p, pe).0; r.xmlSent == g.xmlSent && r.jsonSent == g.jsonSent
  {
    if DONE in codes {
      ActsDone(g, codes, p, pe);
    } else {
      ActsShort(g, codes, p, pe);
    }
  }

  lemma StepSocket(t: Tables, relaxed: bool, cs: nat, g: Regs, buf: string, p: nat)
    requires IsRequestTable(t) && SocketState(cs) && p < |buf| && Bytes(buf) && SocketHolds(g, p)
    ensures var e := Taken(t, relaxed, cs, buf[p]);
      var r := Acts(g, e.actions, 0, p, |buf|);
      && SocketHolds(r.0, p + 1) && r.1 == (e.target == SOCKET_FINAL)
      && (e == FAIL || e.target == SOCKET_FINAL || SocketState(e.target))
  {
    var e := Taken(t, relaxed, cs, buf[p]);
    assert SocketEdge(e);
    if e.target == SOCKET_FINAL {
      var g' := Act(g, e.actions[0], p);
      assert Acts(g', e.actions, 1, p, |buf|) == (Finish(g', p, |buf|), true);
    } else {
      ActsShort(g, e.actions, p, |buf|);
    }
  }

  /** How a run of a fresh parser can stand: finished, dead at a byte, or at the end of what it was given. */
  ghost predicate Stands(r: Ran, buf: string, relaxed: bool) {
    if r.done then
      || (r.cs == FIRST_FINAL && exists v :: Completed(r.regs, buf, r.p, v, relaxed))
      || (r.cs == SOCKET_FINAL && SocketHolds(r.regs, r.p))
    else
      && (r.cs == ERROR <==> r.p < |buf|) && (r.cs != ERROR ==> RequestState(r.cs) || SocketState(r.cs))
      && exists cs, v :: (r.cs == cs || r.cs == ERROR) && Alive(cs, r.regs, buf, r.p, v, relaxed)
  }

  ghost predicate Alive(cs: nat, g: Regs, buf: string, p: nat, v: View, relaxed: bool) {
    (RequestState(cs) && Holds(cs, g, buf, p, v, relaxed)) || (SocketState(cs) && SocketHolds(g, p))
  }

  lemma AliveKnown(t: Tables, cs: nat, g: Regs, buf: string, p: nat, v: View, relaxed: bool)
    requires IsRequestTable(t) && Alive(cs, g, buf, p, v, relaxed)
    ensures WellFormed(t) && cs < States(t) && cs != ERROR
  {
    hide Holds, SocketHolds, WellFormed;
  }

  /** One byte in a live state: the run stands, or goes on from a live state. */
  lemma StepStands(t: Tables, relaxed: bool, cs: nat, g: Regs, buf: string, p: nat, v: View) returns (v': View)
    requires IsRequestTable(t) && Bytes(buf) && p < |buf| && Alive(cs, g, buf, p, v, relaxed)
    ensures cs < States(t)
    ensures var e := Taken(t, relaxed, cs, buf[p]);
      var r := Acts(g, e.actions, 0, p, |buf|);
      && (r.1 ==> Stands(Ran(e.target, r.0, p + 1, true), buf, relaxed))
      && (!r.1 && e.target == ERROR ==> Stands(Ran(ERROR, r.0, p, false), buf, relaxed))
      && (!r.1 && e.target != ERROR ==> Alive(e.target, r.0, buf, p + 1, v', relaxed))
  {
    AliveKnown(t, cs, g, buf, p, v, relaxed);
    if SocketState(cs) {
      SocketStands(t, relaxed, cs, g, buf, p, v);
      v' := v;
    } else {
      v' := StepHolds(t, relaxed, cs, g, buf, p, v);
      KeptStands(Taken(t, relaxed, cs, buf[p]), cs, g, buf, p, v, v', relaxed);
    }
  }

  lemma SocketStands(t: Tables, relaxed: bool, cs: nat, g: Regs, buf: string, p: nat, v: View)
    requires IsRequestTable(t) && SocketState(cs) && p < |buf| && Bytes(buf) && SocketHolds(g, p)
    ensures var e := Taken(t, relaxed, cs, buf[p]);
      var r := Acts(g, e.actions, 0, p, |buf|);
      && (r.1 ==> Stands(Ran(e.target, r.0, p + 1, true), buf, relaxed))
      && (!r.1 && e.target == ERROR ==> Stands(Ran(ERROR, r.0, p, false), buf, relaxed))
      && (!r.1 && e.target != ERROR ==> Alive(e.target, r.0, buf, p + 1, v, relaxed))
  {
    StepSocket(t, relaxed, cs, g, buf, p);
    hide IsRequestTable, Taken, SocketHolds, Holds, Completed;
    assert Alive(cs, g, buf, p, v, relaxed);
    assert Acts(g, FAIL.actions, 0, p, |buf|) == (g, false);
  }

  lemma KeptStands(e: Edge, cs: nat, g: Regs, buf: string, p: nat, v: View, v': View, relaxed: bool)
    requires RequestState(cs) && p < |buf| && Holds(cs, g, buf, p, v, relaxed)
    requires StepKeeps(e, g, buf, p, v', relaxed)
    ensures var r := Acts(g, e.actions, 0, p, |buf|);
      && (r.1 ==> Stands(Ran(e.target, r.0, p + 1, true), buf, relaxed))
      && (!r.1 && e.target == ERROR ==> Stands(Ran(ERROR, r.0, p, false), buf, relaxed))
      && (!r.1 && e.target != ERROR ==> Alive(e.target, r.0, buf, p + 1, v', relaxed))
  {
    hide Holds, Completed, SocketHolds;
    assert Alive(cs, g, buf, p, v, relaxed);
    assert Acts(g, FAIL.actions, 0, p, |buf|) == (g, false);
  }

  /** With no byte left the run stands where it is. */
  lemma EndStands(t: Tables, relaxed: bool, cs: nat, g: Regs, buf: string, v: View)
    requires IsRequestTable(t) && Alive(cs, g, buf, |buf|, v, relaxed)
    ensures cs < States(t) && Stands(Run(t, relaxed, cs, g, buf, |buf|), buf, relaxed)
  {
    assert cs < States(t) && cs != ERROR;
    hide Holds, SocketHolds, IsRequestTable, Completed;
  }

  lemma {:induction false} RunStands(t: Tables, relaxed: bool, cs: nat, g: Regs, buf: string, p: nat, v: View)
    requires IsRequestTable(t) && Bytes(buf) && p <= |buf| && Alive(cs, g, buf, p, v, relaxed)
    ensures cs < States(t) && Stands(Run(t, relaxed, cs, g, buf, p), buf, relaxed)
    decreases |buf| - p
  {
    hide *;
    AliveKnown(t, cs, g, buf, p, v, relaxed);
    if p == |buf| {
      EndStands(t, relaxed, cs, g, buf, v);
    } else {
      RunStep(t, relaxed, cs, g, buf, p);
      var v' := StepStands(t, relaxed, cs, g, buf, p, v);
      var e := Taken(t, relaxed, cs, buf[p]);
      var r := Acts(g, e.actions, 0, p, |buf|);
      if !r.1 && e.target != ERROR {
        RunStands(t, relaxed, e.target, r.0, buf, p + 1, v');
      }
    }
  }

  /** Every run of a fresh parser stands in one of these ways, whatever `query_start` held before. */
  lemma FreshRunStands(t: Tables, relaxed: bool, garbage: nat, buf: string)
    requires IsRequestTable(t) && Bytes(buf)
    ensures Stands(Run(t, relaxed, START, Initial(garbage).regs, buf, 0), buf, relaxed)
  {
    var v := View(Head(0, 0, 0, None, None), []);
    assert Alive(START, Initial(garbage).regs, buf, 0, v, relaxed);
    RunStands(t, relaxed, START, Initial(garbage).regs, buf, 0, v);
  }
}
