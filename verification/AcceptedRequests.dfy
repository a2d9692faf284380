/**
 The incremental parser accepts exactly the requests of the grammar, address literals aside.

 `RequestFinishes` says that every request of the grammar is accepted with its parts reported. Here is the converse:
 a finished run leaves no other way to read what it read.
 */
module AcceptedRequests {
  import opened Prelude
  import opened TableSearch
  import opened ParserEngine
  import opened RequestTable
  import opened RequestText
  import opened RequestPaths
  import opened RequestTheorems
  import opened HeaderRuns
  import opened RequestLines

  // ---- Callbacks only grow ----

  lemma {:induction false} ActsGrow(g: Regs, codes: seq<nat>, i: nat, p: nat, pe: nat)
    requires i <= |codes|
    ensures g.calls <= Acts(g, codes, i, p, pe).0.calls
    decreases |codes| - i
  {
    if i < |codes| && codes[i] != DONE {
      assert g.calls <= Act(g, codes[i], p).calls;
      ActsGrow(Act(g, codes[i], p), codes, i + 1, p, pe);
    }
  }

  lemma {:induction false} CallsGrow(t: Tables, relaxed: bool, cs: nat, g: Regs, buf: string, p: nat)
    requires WellFormed(t) && cs < States(t) && p <= |buf|
    ensures g.calls <= Run(t, relaxed, cs, g, buf, p).regs.calls
    decreases |buf| - p
  {
    hide WellFormed, Taken, Acts;
    if p < |buf| && cs != ERROR {
      var e := Taken(t, relaxed, cs, buf[p]);
      var r := Acts(g, e.actions, 0, p, |buf|);
      ActsGrow(g, e.actions, 0, p, |buf|);
      if !r.1 && e.target != ERROR {
        CallsGrow(t, relaxed, e.target, r.0, buf, p + 1);
      }
    }
  }

  // ---- The calls tell the parts ----

  lemma HeadCallsTell(h: Head, more: seq<Call>)
    ensures var calls := HeadCalls(h) + more;
      var q := if h.query.Some? then 1 else 0;
      var f := if h.fragment.Some? then 1 else 0;
      && |HeadCalls(h)| == 4 + q + f
      && calls[0] == Element(METHOD, 0, h.methodLen) && calls[1] == Element(PATH, h.uriStart, h.pathLen)
      && (h.query.Some? ==> calls[2] == Element(QUERY, PathEnd(h) + 1, h.query.value))
      && calls[2 + q] == Element(URI, h.uriStart, UriEnd(h) - h.uriStart)
      && (h.fragment.Some? ==> calls[3 + q] == Element(FRAGMENT, UriEnd(h) + 1, h.fragment.value))
      && calls[3 + q + f] == Element(VERSION, TargetEnd(h) + 1, VERSION_LEN)
  {
  }

  lemma HeadsEqual(h: Head, k: Head, more: seq<Call>, others: seq<Call>)
    requires HeadCalls(h) + more == HeadCalls(k) + others
    ensures h == k && more == others
  {
    HeadCallsTell(h, more);
    HeadCallsTell(k, others);
    hide HeadCalls;
    assert h.query.Some? == k.query.Some?;
    assert h.fragment.Some? == k.fragment.Some?;
    assert more == (HeadCalls(h) + more)[|HeadCalls(h)|..] == (HeadCalls(k) + others)[|HeadCalls(k)|..];
  }

  lemma PartsEqual(a: seq<Part>, b: seq<Part>, d: Call, e: Call)
    requires PartCalls(a) + [d] == PartCalls(b) + [e]
    ensures a == b && d == e
  {
    var x, y := PartCalls(a), PartCalls(b);
    assert |x + [d]| == |y + [e]| && x == (x + [d])[..|a|] == (y + [e])[..|b|] == y;
    assert (x + [d])[|a|] == (y + [e])[|b|];
    forall i | 0 <= i < |a| ensures a[i] == b[i] {
      assert PartCall(a[i]) == x[i] == y[i] == PartCall(b[i]);
    }
  }

  /** A run reports one division of what it read. */
  lemma FinishesOnce(r: Ran, v: View, end: nat, w: View, other: nat)
    requires Finishes(r, v, end) && Finishes(r, w, other)
    ensures v == w && end == other
  {
    Assoc3(HeadCalls(v.head), PartCalls(v.parts), [HeaderDone(end)]);
    Assoc3(HeadCalls(w.head), PartCalls(w.parts), [HeaderDone(other)]);
    hide HeadCalls, PartCalls;
    HeadsEqual(v.head, w.head, PartCalls(v.parts) + [HeaderDone(end)], PartCalls(w.parts) + [HeaderDone(other)]);
    PartsEqual(v.parts, w.parts, HeaderDone(end), HeaderDone(other));
  }

  // ---- The path of a finished run ----

  lemma {:induction false} ReadableBehind(buf: string, from: nat, mid: nat, end: nat, relaxed: bool)
    requires Readable(buf, from, end, false, relaxed) && from <= mid <= end
    requires forall i :: from <= i < mid ==> buf[i] != '%'
    ensures Readable(buf, mid, end, false, relaxed)
    decreases end
  {
    hide TextByte, HexChar;
    if mid < end {
      if TextByte(Signed(buf[end - 1]), false, relaxed) && Readable(buf, from, end - 1, false, relaxed) {
        ReadableBehind(buf, from, mid, end - 1, relaxed);
      } else {
        ReadableBehind(buf, from, mid, end - 3, relaxed);
      }
    }
  }

  lemma SchemePlace(buf: string, from: nat, p: nat, relaxed: bool) returns (k: nat)
    requires from <= p <= |buf| && Scheming(buf, from, p) && Readable(buf, from, p, false, relaxed)
    ensures from < k < p && buf[k] == ':' && SchemeText(buf, from, k) && Readable(buf, k + 1, p, false, relaxed)
  {
    k := FirstAt(buf, ':', from, p);
    SchemeHasNoEscape(buf, from, k);
    hide FirstAt, Readable;
    ReadableBehind(buf, from, k + 1, p, relaxed);
  }

  lemma SchemeHasNoEscape(buf: string, from: nat, k: nat)
    requires SchemeText(buf, from, k) && k < |buf| && buf[k] == ':'
    ensures forall i :: from <= i < k + 1 ==> buf[i] != '%'
  {
    assert forall i :: from <= i < k ==> SchemeByte(Signed(buf[i]));
  }

  lemma ClosedFirst(g: Regs, from: nat, p: nat, c: char, calls: seq<Call>)
    requires PathClosed(g, from, p, c).calls <= calls
    ensures |calls| > |g.calls| && calls[|g.calls|] == Element(PATH, from, p - from)
  {
    var own := PathClosed(g, from, p, c).calls;
    assert own[|g.calls|] == Element(PATH, from, p - from);
  }

  lemma OutcomeIs(t: Tables, relaxed: bool, r: Ran, g: Regs, buf: string, from: nat, p: nat, schemed: bool)
    requires IsRequestTable(t) && from <= p < |buf| && PathTarget(buf[p]) < STATES
    requires PathOutcome(t, relaxed, r, g, buf, from, p, schemed) && r.cs != ERROR
    ensures PathForm(buf, from, p, schemed)
    ensures r == Run(t, relaxed, PathTarget(buf[p]), PathClosed(g, from, p, buf[p]), buf, p + 1)
  {
    hide Run, IsRequestTable, PathForm, PathClosed;
  }

  /** Behind a path that is accepted, the first new callback is the path's. */
  lemma PathIsFirst(t: Tables, relaxed: bool, r: Ran, g: Regs, buf: string, from: nat, p: nat, schemed: bool)
    requires IsRequestTable(t) && from <= p < |buf| && PathTarget(buf[p]) < STATES
    requires PathOutcome(t, relaxed, r, g, buf, from, p, schemed) && r.cs != ERROR
    ensures |r.regs.calls| > |g.calls| && r.regs.calls[|g.calls|] == Element(PATH, from, p - from)
  {
    hide *;
    InTable(t);
    OutcomeIs(t, relaxed, r, g, buf, from, p, schemed);
    CallsGrow(t, relaxed, PathTarget(buf[p]), PathClosed(g, from, p, buf[p]), buf, p + 1);
    ClosedFirst(g, from, p, buf[p], r.regs.calls);
  }

  /** Where a path without a scheme seems to hold one, the parser takes it for one, and reports what is behind it. */
  lemma SchemeIsTaken(t: Tables, relaxed: bool, g: Regs, buf: string, from: nat, p: nat)
    requires IsRequestTable(t) && Bytes(buf) && Readable(buf, from, p, false, relaxed)
    requires from <= p < |buf| && buf[p] in [' ', '#', '?'] && Scheming(buf, from, p)
    ensures 3 < States(t)
    ensures var r := Run(t, relaxed, 3, g, buf, from);
      r.cs == ERROR || (|r.regs.calls| > |g.calls| && r.regs.calls[|g.calls|].Element?
                        && r.regs.calls[|g.calls|].start != from)
  {
    hide *;
    var k := SchemePlace(buf, from, p, relaxed);
    SchemedTargetRuns(t, relaxed, g, buf, from, k + 1, p);
    InTable(t);
    var r := Run(t, relaxed, 3, g, buf, from);
    if r.cs != ERROR {
      PathIsFirst(t, relaxed, r, g, buf, k + 1, p, true);
    }
  }

  lemma InTable(t: Tables)
    requires IsRequestTable(t)
    ensures WellFormed(t) && States(t) == STATES
  {
  }

  /** A finished run has read a path of the form. */
  lemma FinishedLine(t: Tables, relaxed: bool, garbage: nat, buf: string, v: View, end: nat)
    requires IsRequestTable(t) && Bytes(buf) && Finishes(FreshRun(t, relaxed, garbage, buf), v, end)
    requires HeadText(buf, v.head, relaxed) && Readable(buf, v.head.uriStart, PathEnd(v.head), false, relaxed)
    ensures LineText(buf, v.head, relaxed)
  {
    hide *;
    var h := v.head;
    var g := FreshRegs(t, relaxed, garbage, buf);
    InTable(t);
    LineParts(buf, h, relaxed);
    EndsPath(buf[PathEnd(h)], h);
    MethodCloses(t, relaxed, g, buf, h.methodLen);
    var r := FreshRun(t, relaxed, garbage, buf);
    var asked := Asked(g, h.methodLen);
    FinishedCalls(r, v, end, g);
    if !Schemed(h) && Scheming(buf, h.uriStart, PathEnd(h)) {
      UnschemedStart(h);
      SchemeIsTaken(t, relaxed, asked, buf, h.uriStart, PathEnd(h));
    } else {
      TargetRuns(t, relaxed, asked, buf, h);
      OutcomeIs(t, relaxed, r, asked, buf, h.uriStart, PathEnd(h), Schemed(h));
      LineTextIs(buf, h, relaxed);
    }
  }

  lemma FinishedCalls(r: Ran, v: View, end: nat, g: Regs)
    requires Finishes(r, v, end)
    ensures r.cs != ERROR && |Asked(g, v.head.methodLen).calls| == 1
    ensures |r.regs.calls| > 1 && r.regs.calls[1] == Element(PATH, v.head.uriStart, v.head.pathLen)
  {
    Assoc3(HeadCalls(v.head), PartCalls(v.parts), [HeaderDone(end)]);
    HeadCallsTell(v.head, PartCalls(v.parts) + [HeaderDone(end)]);
    hide HeadCalls, PartCalls;
  }

  // ---- The names of a finished run ----

  lemma {:induction false} PartsInPlace(buf: string, from: nat, parts: seq<Part>, k: nat)
    requires PartsText(buf, from, parts) && k < |parts|
    ensures PartsText(buf, from, parts[..k]) && PartText(buf, parts[k])
    ensures LineBreak(buf, PartsEnd(from, parts[..k]), parts[k].nameStart)
    decreases |parts|
  {
    hide LineBreak, PartText, PartsEnd;
    var rest := parts[..|parts| - 1];
    if k < |rest| {
      PartsInPlace(buf, from, rest, k);
      assert rest[..k] == parts[..k];
    }
  }

  /** A name that does not start like one is the empty line. */
  lemma NoNameIsBreak(buf: string, f: Part) returns (end: nat)
    requires PartText(buf, f) && !StartsName(buf, f)
    ensures LineBreak(buf, f.nameStart, end)
  {
    end := if buf[f.nameStart] == '\n' then f.nameStart + 1 else f.nameStart + 2;
  }

  /** There the run would have finished, with fewer callbacks. */
  lemma FinishesEarly(t: Tables, relaxed: bool, garbage: nat, buf: string, h: Head, parts: seq<Part>, f: Part)
    returns (end: nat)
    requires IsRequestTable(t) && Bytes(buf) && LineText(buf, h, relaxed)
    requires PartsText(buf, VersionEnd(h), parts) && NamesStart(buf, parts)
    requires LineBreak(buf, PartsEnd(VersionEnd(h), parts), f.nameStart) && PartText(buf, f) && !StartsName(buf, f)
    ensures Finishes(FreshRun(t, relaxed, garbage, buf), View(h, parts), end)
  {
    end := NoNameIsBreak(buf, f);
    hide LineText, PartsText, PartText, StartsName, NamesStart, LineBreak, IsRequestTable, FreshRun, Finishes;
    EarlyRequest(buf, h, parts, f.nameStart, end, relaxed);
    RequestFinishes(t, relaxed, garbage, buf, View(h, parts), end);
  }

  lemma EarlyRequest(buf: string, h: Head, parts: seq<Part>, line: nat, end: nat, relaxed: bool)
    requires LineText(buf, h, relaxed) && PartsText(buf, VersionEnd(h), parts) && NamesStart(buf, parts)
    requires LineBreak(buf, PartsEnd(VersionEnd(h), parts), line) && LineBreak(buf, line, end)
    ensures IsRequest(buf, View(h, parts), end, relaxed)
  {
    hide LineText, PartsText, NamesStart, LineBreak;
  }

  lemma {:induction false} FinishedNames(t: Tables, relaxed: bool, garbage: nat, buf: string, v: View, end: nat, k: nat)
    requires IsRequestTable(t) && Bytes(buf) && Finishes(FreshRun(t, relaxed, garbage, buf), v, end)
    requires LineText(buf, v.head, relaxed) && PartsText(buf, VersionEnd(v.head), v.parts) && k <= |v.parts|
    ensures NamesStart(buf, v.parts[..k])
    decreases k
  {
    hide LineText, PartsText, StartsName, IsRequestTable, FreshRun, Finishes, LineBreak, PartText;
    if k > 0 {
      FinishedNames(t, relaxed, garbage, buf, v, end, k - 1);
      var parts, f := v.parts[..k - 1], v.parts[k - 1];
      PartsInPlace(buf, VersionEnd(v.head), v.parts, k - 1);
      assert v.parts[..k] == parts + [f];
      if !StartsName(buf, f) {
        var early := FinishesEarly(t, relaxed, garbage, buf, v.head, parts, f);
        FinishesOnce(FreshRun(t, relaxed, garbage, buf), v, end, View(v.head, parts), early);
      }
    }
  }

  // ---- Exactly ----

  /**
   A fresh parser finishes at `end` with the parts of a view exactly when the bytes in front of `end` are the request
   with these parts. The grammar of paths leaves out address literals, hence the path must be readable text.
   */
  lemma RequestsExactly(t: Tables, relaxed: bool, garbage: nat, buf: string, v: View, end: nat)
    requires IsRequestTable(t) && Bytes(buf) && Readable(buf, v.head.uriStart, PathEnd(v.head), false, relaxed)
    ensures Finishes(FreshRun(t, relaxed, garbage, buf), v, end) <==> IsRequest(buf, v, end, relaxed)
  {
    if IsRequest(buf, v, end, relaxed) {
      RequestFinishes(t, relaxed, garbage, buf, v, end);
    } else if Finishes(FreshRun(t, relaxed, garbage, buf), v, end) {
      FinishedIsRequest(t, relaxed, garbage, buf, v, end);
    }
  }

  lemma FinishedIsRequest(t: Tables, relaxed: bool, garbage: nat, buf: string, v: View, end: nat)
    requires IsRequestTable(t) && Bytes(buf) && Finishes(FreshRun(t, relaxed, garbage, buf), v, end)
    requires Readable(buf, v.head.uriStart, PathEnd(v.head), false, relaxed)
    ensures IsRequest(buf, v, end, relaxed)
  {
    var line := FinishedParts(t, relaxed, garbage, buf, v, end);
    hide *;
    FinishedLine(t, relaxed, garbage, buf, v, end);
    FinishedNames(t, relaxed, garbage, buf, v, end, |v.parts|);
    WholeView(v);
    EarlyRequest(buf, v.head, v.parts, line, end, relaxed);
  }

  lemma WholeView(v: View)
    ensures v.parts[..|v.parts|] == v.parts && View(v.head, v.parts) == v
  {
  }

  lemma FinishedParts(t: Tables, relaxed: bool, garbage: nat, buf: string, v: View, end: nat) returns (line: nat)
    requires IsRequestTable(t) && Bytes(buf) && Finishes(FreshRun(t, relaxed, garbage, buf), v, end)
    ensures HeadText(buf, v.head, relaxed) && PartsText(buf, VersionEnd(v.head), v.parts)
    ensures LineBreak(buf, PartsEnd(VersionEnd(v.head), v.parts), line) && LineBreak(buf, line, end)
  {
    var r := FreshRun(t, relaxed, garbage, buf);
    assert r.cs == FIRST_FINAL && r.p == end;
    hide FreshRun, IsRequestTable, HeadText, PartsText, LineBreak, HeadCalls, PartCalls;
    var w := FinishedRequestIsItsParts(t, relaxed, garbage, buf);
    FinishesIs(r, w, end);
    FinishesOnce(r, v, end, w, end);
    line :| LineBreak(buf, PartsEnd(VersionEnd(w.head), w.parts), line) && LineBreak(buf, line, r.p);
  }

  /** No bytes are two requests: what is accepted can be read in one way only. */
  lemma OneReading(t: Tables, relaxed: bool, garbage: nat, buf: string, v: View, end: nat, w: View, other: nat)
    requires IsRequestTable(t) && Bytes(buf) && IsRequest(buf, v, end, relaxed) && IsRequest(buf, w, other, relaxed)
    ensures v == w && end == other
  {
    hide *;
    RequestFinishes(t, relaxed, garbage, buf, v, end);
    RequestFinishes(t, relaxed, garbage, buf, w, other);
    FinishesOnce(FreshRun(t, relaxed, garbage, buf), v, end, w, other);
  }

  /** Without a bracket in it, a buffer is accepted exactly when it begins with a request. */
  lemma AcceptedExactly(t: Tables, relaxed: bool, garbage: nat, buf: string)
    requires IsRequestTable(t) && Bytes(buf) && '[' !in buf
    ensures FreshRun(t, relaxed, garbage, buf).cs == FIRST_FINAL <==> exists v, end :: IsRequest(buf, v, end, relaxed)
  {
    var r := FreshRun(t, relaxed, garbage, buf);
    if v, end :| IsRequest(buf, v, end, relaxed) {
      RequestFinishes(t, relaxed, garbage, buf, v, end);
    }
    if r.cs == FIRST_FINAL {
      var v := FinishedRequestIsItsParts(t, relaxed, garbage, buf);
      HasReadablePath(buf, v.head, relaxed);
      hide FreshRun, HeadCalls, PartCalls, IsRequest, Readable, IsRequestTable;
      FinishesIs(r, v, r.p);
      FinishedIsRequest(t, relaxed, garbage, buf, v, r.p);
      assert IsRequest(buf, v, r.p, relaxed);
    }
  }

  lemma HasReadablePath(buf: string, h: Head, relaxed: bool)
    requires HeadText(buf, h, relaxed) && '[' !in buf
    ensures Readable(buf, h.uriStart, PathEnd(h), false, relaxed)
  {
    hide Readable, Without, StartText;
  }
}
