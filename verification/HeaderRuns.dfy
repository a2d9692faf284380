/**
 Header lines through the incremental parser.

 Started at a line start, the header states read any lines of a name, a colon, blanks and a value, broken by LF or by
 CR LF, what `serialize` prints among them: one `http_field` per header, in order, with the name and the value (less its
 leading blanks) as slices, and done at the last line break.
 */
module HeaderRuns {
  import opened Prelude
  import opened TableSearch
  import opened ParserEngine
  import opened RequestTable
  import opened RequestText
  import opened RequestRuns
  import opened Splitting
  import opened TextParser

  // ---- Headers the automaton can read ----

  /** The value without the blanks in front of it. */
  function DropBlanks(s: string): (r: string)
    ensures |r| <= |s| && r == s[|s| - |r|..]
    ensures Blanks(s, 0, |s| - |r|) && (r != [] ==> r[0] != ' ' && r[0] != '\t')
  {
    if s != [] && (s[0] == ' ' || s[0] == '\t') then DropBlanks(s[1..]) else s
  }

  /** Name bytes, and not what looks like the empty line that ends the headers. */
  predicate GoodName(n: string) {
    && n != [] && (forall i :: 0 <= i < |n| ==> TokenByte(Signed(n[i])))
    && n[0] != '\n' && !(|n| > 1 && n[0] == '\r' && n[1] == '\n')
  }

  predicate GoodValue(v: string) {
    forall i :: 0 <= i < |v| ==> ValueChar(v[i])
  }

  predicate GoodHeaders(hs: Headers) {
    forall i :: 0 <= i < |hs| ==> GoodName(hs[i].0) && GoodValue(hs[i].1)
  }

  /** A text stands in the buffer at a position. */
  ghost predicate StandsAt(buf: string, p: nat, s: string) {
    p + |s| <= |buf| && forall i :: 0 <= i < |s| ==> s[i] == buf[p + i]
  }

  function NameOf(buf: string, f: Part): string
    requires f.nameStart + f.nameLen <= |buf|
  {
    buf[f.nameStart..f.nameStart + f.nameLen]
  }

  function ValueOfPart(buf: string, f: Part): string
    requires ValueEnd(f) <= |buf|
  {
    buf[f.valueStart..ValueEnd(f)]
  }

  /** The slices of a part hold a header, the value less its leading blanks. */
  ghost predicate PartHolds(buf: string, f: Part, h: (string, string)) {
    && f.nameStart + f.nameLen <= |buf| && ValueEnd(f) <= |buf|
    && NameOf(buf, f) == h.0 && ValueOfPart(buf, f) == DropBlanks(h.1)
  }

  // ---- Steps and stretches ----

  lemma HeaderStep(t: Tables, relaxed: bool, cs: nat, g: Regs, buf: string, p: nat)
    requires IsRequestTable(t) && HeaderState(cs) && p < |buf| && Bytes(buf)
    ensures var e := HeaderDelta(cs, Signed(buf[p]));
      var r := Acts(g, e.actions, 0, p, |buf|);
      && Taken(t, relaxed, cs, buf[p]) == e
      && (e.target != ERROR && !r.1 ==>
            Run(t, relaxed, cs, g, buf, p) == Run(t, relaxed, e.target, r.0, buf, p + 1))
      && (r.1 ==> Run(t, relaxed, cs, g, buf, p) == Ran(e.target, r.0, p + 1, true))
  {
    TakenIsDelta(t, relaxed, cs, buf[p]);
  }

  lemma {:induction false} NameStretch(t: Tables, relaxed: bool, g: Regs, buf: string, p: nat, q: nat)
    requires IsRequestTable(t) && Bytes(buf) && NameText(buf, p, q)
    ensures Run(t, relaxed, 14, g, buf, p) == Run(t, relaxed, 14, g, buf, q)
    decreases q - p
  {
    hide IsRequestTable, Run;
    if p < q {
      HeaderStep(t, relaxed, 14, g, buf, p);
      ActsShort(g, [], p, |buf|);
      NameStretch(t, relaxed, g, buf, p + 1, q);
    }
  }

  lemma {:induction false} BlankStretch(t: Tables, relaxed: bool, g: Regs, buf: string, p: nat, q: nat)
    returns (g': Regs)
    requires IsRequestTable(t) && Bytes(buf) && Blanks(buf, p, q)
    ensures g' == g.(mark := g'.mark)
    ensures Run(t, relaxed, 15, g, buf, p) == Run(t, relaxed, 15, g', buf, q)
    decreases q - p
  {
    hide IsRequestTable, Run;
    g' := g;
    if p < q {
      HeaderStep(t, relaxed, 15, g, buf, p);
      ActsShort(g, [START_VALUE], p, |buf|);
      g' := BlankStretch(t, relaxed, g.(mark := p), buf, p + 1, q);
    }
  }

  ghost predicate ValueStretchText(buf: string, p: nat, q: nat) {
    p <= q <= |buf| && forall i :: p <= i < q ==> ValueChar(buf[i])
  }

  lemma {:induction false} ValueStretch(t: Tables, relaxed: bool, g: Regs, buf: string, p: nat, q: nat)
    requires IsRequestTable(t) && Bytes(buf) && ValueStretchText(buf, p, q)
    ensures Run(t, relaxed, 16, g, buf, p) == Run(t, relaxed, 16, g, buf, q)
    decreases q - p
  {
    hide IsRequestTable, Run;
    if p < q {
      HeaderStep(t, relaxed, 16, g, buf, p);
      ActsShort(g, [], p, |buf|);
      ValueStretch(t, relaxed, g, buf, p + 1, q);
    }
  }

  /** The first byte of a name. */
  lemma NameStart(t: Tables, relaxed: bool, g: Regs, buf: string, p: nat, name: string)
    requires IsRequestTable(t) && Bytes(buf) && GoodName(name) && StandsAt(buf, p, name)
    requires p + |name| < |buf| && buf[p + |name|] == ':'
    ensures Run(t, relaxed, 13, g, buf, p) == Run(t, relaxed, 14, g.(fieldStart := p), buf, p + 1)
  {
    var g1 := g.(fieldStart := p);
    hide IsRequestTable, Run;
    assert buf[p] == name[0];
    HeaderStep(t, relaxed, 13, g, buf, p);
    ActsShort(g, [START_FIELD], p, |buf|);
    if name[0] == '\r' {
      assert |name| > 1 ==> buf[p + 1] == name[1];
      AfterCr(t, relaxed, g1, buf, p + 1);
    }
  }

  lemma NameStands(buf: string, p: nat, name: string)
    requires GoodName(name) && StandsAt(buf, p, name)
    ensures NameText(buf, p + 1, p + |name|)
  {
    forall i | p + 1 <= i < p + |name| ensures TokenByte(Signed(buf[i])) {
      assert buf[p + (i - p)] == name[i - p];
    }
  }

  lemma ColonStep(t: Tables, relaxed: bool, g: Regs, buf: string, p: nat)
    requires IsRequestTable(t) && Bytes(buf) && p < |buf| && buf[p] == ':'
    ensures Run(t, relaxed, 14, g, buf, p) == Run(t, relaxed, 15, g.(fieldLen := p - g.fieldStart), buf, p + 1)
  {
    hide IsRequestTable, Run;
    HeaderStep(t, relaxed, 14, g, buf, p);
    ActsShort(g, [WRITE_FIELD], p, |buf|);
  }

  /** From a line start over a name and its colon. */
  lemma NameLine(t: Tables, relaxed: bool, g: Regs, buf: string, p: nat, name: string)
    requires IsRequestTable(t) && Bytes(buf) && GoodName(name) && StandsAt(buf, p, name)
    requires p + |name| < |buf| && buf[p + |name|] == ':'
    ensures Run(t, relaxed, 13, g, buf, p)
         == Run(t, relaxed, 15, g.(fieldStart := p, fieldLen := |name|), buf, p + |name| + 1)
  {
    var colon := p + |name|;
    var g1 := g.(fieldStart := p);
    hide IsRequestTable, Run, GoodName, StandsAt, NameText;
    NameStands(buf, p, name);
    NameStart(t, relaxed, g, buf, p, name);
    NameStretch(t, relaxed, g1, buf, p + 1, colon);
    ColonStep(t, relaxed, g1, buf, colon);
  }

  /** Behind a CR the automaton reads a name, unless the LF of the last line break follows. */
  lemma AfterCr(t: Tables, relaxed: bool, g: Regs, buf: string, p: nat)
    requires IsRequestTable(t) && Bytes(buf) && p < |buf| && buf[p] != '\n'
    requires TokenByte(Signed(buf[p])) || buf[p] == ':'
    ensures Run(t, relaxed, 18, g, buf, p) == Run(t, relaxed, 14, g, buf, p)
  {
    hide IsRequestTable, Run;
    HeaderStep(t, relaxed, 18, g, buf, p);
    HeaderStep(t, relaxed, 14, g, buf, p);
    if buf[p] == ':' {
      ActsShort(g, [WRITE_FIELD], p, |buf|);
    } else {
      ActsShort(g, [], p, |buf|);
    }
  }

  /** The state behind the first byte of a line break: 13 is a line start, 17 waits for the LF behind a CR. */
  function BreakState(c: char): nat {
    if c == '\n' then 13 else 17
  }

  /** A value that is not empty, and the first byte of its line break. */
  lemma ValueAndBreak(t: Tables, relaxed: bool, g: Regs, buf: string, start: nat, end: nat) returns (g': Regs)
    requires IsRequestTable(t) && Bytes(buf) && start < end < |buf| && (buf[end] == '\r' || buf[end] == '\n')
    requires ValueStretchText(buf, start, end) && buf[start] != ' ' && buf[start] != '\t'
    ensures BreakState(buf[end]) < States(t)
    ensures Run(t, relaxed, 15, g, buf, start) == Run(t, relaxed, BreakState(buf[end]), g', buf, end + 1)
    ensures g' == g.(mark := start, calls := g.calls + [Field(g.fieldStart, g.fieldLen, start, end - start)])
  {
    hide IsRequestTable, Run;
    assert ValueChar(buf[start]);
    HeaderStep(t, relaxed, 15, g, buf, start);
    ActsShort(g, [START_VALUE], start, |buf|);
    g' := g.(mark := start);
    ValueStretch(t, relaxed, g', buf, start + 1, end);
    HeaderStep(t, relaxed, 16, g', buf, end);
    ActsShort(g', [WRITE_VALUE], end, |buf|);
    g' := Act(g', WRITE_VALUE, end);
  }

  /** An empty value: its place is that of the line break. */
  lemma EmptyAndBreak(t: Tables, relaxed: bool, g: Regs, buf: string, end: nat) returns (g': Regs)
    requires IsRequestTable(t) && Bytes(buf) && end < |buf| && (buf[end] == '\r' || buf[end] == '\n')
    ensures BreakState(buf[end]) < States(t)
    ensures Run(t, relaxed, 15, g, buf, end) == Run(t, relaxed, BreakState(buf[end]), g', buf, end + 1)
    ensures g' == g.(mark := end, calls := g.calls + [Field(g.fieldStart, g.fieldLen, end, 0)])
  {
    hide IsRequestTable, Run;
    HeaderStep(t, relaxed, 15, g, buf, end);
    ActsShort(g, [START_VALUE, WRITE_VALUE], end, |buf|);
    g' := Act(Act(g, START_VALUE, end), WRITE_VALUE, end);
  }

  lemma ValueStands(buf: string, p: nat, raw: string)
    requires GoodValue(raw) && StandsAt(buf, p, raw)
    ensures var v := DropBlanks(raw);
      var start := p + (|raw| - |v|);
      && Blanks(buf, p, start) && ValueStretchText(buf, start, p + |raw|)
      && (v != [] ==> buf[start] != ' ' && buf[start] != '\t')
  {
    var v := DropBlanks(raw);
    var k := |raw| - |v|;
    hide DropBlanks;
    assert forall i :: 0 <= i < |v| ==> v[i] == raw[k + i];
    forall i | p <= i < p + k ensures buf[i] == ' ' || buf[i] == '\t' {
      assert buf[p + (i - p)] == raw[i - p];
    }
    forall i | p + k <= i < p + |raw| ensures ValueChar(buf[i]) {
      assert buf[p + (i - p)] == raw[i - p];
    }
    assert v != [] ==> buf[p + k] == raw[k] == v[0];
  }

  /** From behind a colon over blanks, a value and its line break. */
  lemma ValueLine(t: Tables, relaxed: bool, g: Regs, buf: string, p: nat, start: nat, end: nat, line: nat)
    returns (g': Regs)
    requires IsRequestTable(t) && Bytes(buf) && LineBreak(buf, end, line)
    requires Blanks(buf, p, start) && ValueStretchText(buf, start, end)
    requires start < end ==> buf[start] != ' ' && buf[start] != '\t'
    ensures Run(t, relaxed, 15, g, buf, p) == Run(t, relaxed, 13, g', buf, line)
    ensures g' == g.(mark := start, calls := g.calls + [Field(g.fieldStart, g.fieldLen, start, end - start)])
  {
    hide IsRequestTable, Run, Blanks;
    g' := BlankStretch(t, relaxed, g, buf, p, start);
    if start == end {
      g' := EmptyAndBreak(t, relaxed, g', buf, start);
    } else {
      g' := ValueAndBreak(t, relaxed, g', buf, start, end);
    }
    if buf[end] == '\r' {
      LfStep(t, relaxed, g', buf, end + 1);
    }
  }

  lemma LfStep(t: Tables, relaxed: bool, g: Regs, buf: string, p: nat)
    requires IsRequestTable(t) && Bytes(buf) && p < |buf| && buf[p] == '\n'
    ensures Run(t, relaxed, 17, g, buf, p) == Run(t, relaxed, 13, g, buf, p + 1)
  {
    hide IsRequestTable, Run;
    HeaderStep(t, relaxed, 17, g, buf, p);
    ActsShort(g, [], p, |buf|);
  }

  /** The empty line that ends the headers. */
  lemma LastLine(t: Tables, relaxed: bool, g: Regs, buf: string, p: nat, end: nat)
    requires IsRequestTable(t) && Bytes(buf) && LineBreak(buf, p, end) && !g.xmlSent && !g.jsonSent
    ensures var r := Run(t, relaxed, 13, g, buf, p);
      && r.cs == FIRST_FINAL && r.done && r.p == end
      && r.regs.calls == g.calls + [HeaderDone(end)] && r.regs.bodyStart == end
  {
    hide IsRequestTable, Run;
    var g1 := g.(fieldStart := p);
    HeaderStep(t, relaxed, 13, g, buf, p);
    if buf[p] == '\r' {
      ActsShort(g, [START_FIELD], p, |buf|);
      HeaderStep(t, relaxed, 18, g1, buf, p + 1);
      ActsDone(g1, [DONE], p + 1, |buf|);
    } else {
      ActsDone(g, [START_FIELD, DONE], p, |buf|);
    }
  }

  // ---- Header lines wherever they stand ----

  /** A name does not look like the empty line that ends the headers. */
  ghost predicate StartsName(buf: string, f: Part) {
    && f.nameStart + 1 < |buf| && buf[f.nameStart] != '\n'
    && !(buf[f.nameStart] == '\r' && buf[f.nameStart + 1] == '\n')
  }

  lemma PartIsGood(buf: string, f: Part, line: nat)
    requires PartText(buf, f) && StartsName(buf, f) && LineBreak(buf, ValueEnd(f), line)
    ensures var colon := f.nameStart + f.nameLen;
      && colon < |buf| && buf[colon] == ':' && GoodName(NameOf(buf, f)) && StandsAt(buf, f.nameStart, NameOf(buf, f))
      && |NameOf(buf, f)| == f.nameLen && Blanks(buf, colon + 1, f.valueStart)
      && ValueStretchText(buf, f.valueStart, ValueEnd(f))
      && (f.valueStart < ValueEnd(f) ==> buf[f.valueStart] != ' ' && buf[f.valueStart] != '\t')
  {
    var n := NameOf(buf, f);
    forall i | 0 <= i < |n| ensures n[i] == buf[f.nameStart + i] && TokenByte(Signed(n[i])) {
    }
    assert n[0] == buf[f.nameStart] && (|n| > 1 ==> n[1] == buf[f.nameStart + 1]);
  }

  /** From line start to line start over a name, a value and its line break. */
  lemma PartRuns(t: Tables, relaxed: bool, g: Regs, buf: string, f: Part, line: nat) returns (g': Regs)
    requires IsRequestTable(t) && Bytes(buf) && PartText(buf, f) && StartsName(buf, f)
    requires LineBreak(buf, ValueEnd(f), line)
    ensures f.nameStart <= |buf| && line <= |buf|
    ensures Run(t, relaxed, 13, g, buf, f.nameStart) == Run(t, relaxed, 13, g', buf, line)
    ensures g'.calls == g.calls + [PartCall(f)] && g'.xmlSent == g.xmlSent && g'.jsonSent == g.jsonSent
  {
    hide IsRequestTable, Run, GoodName, StandsAt, Blanks, ValueStretchText, PartText, StartsName;
    PartIsGood(buf, f, line);
    var name, colon := NameOf(buf, f), f.nameStart + f.nameLen;
    NameLine(t, relaxed, g, buf, f.nameStart, name);
    g' := ValueLine(t, relaxed, g.(fieldStart := f.nameStart, fieldLen := |name|), buf, colon + 1, f.valueStart,
                    ValueEnd(f), line);
  }

  ghost predicate NamesStart(buf: string, parts: seq<Part>) {
    forall k :: 0 <= k < |parts| ==> StartsName(buf, parts[k])
  }

  /** Where the first header line starts, or the line behind all of them. */
  function FirstLineAt(parts: seq<Part>, line: nat): nat {
    if parts == [] then line else parts[0].nameStart
  }

  /** Header lines one behind the other. */
  lemma {:induction false} PartsRun(t: Tables, relaxed: bool, g: Regs, buf: string, from: nat, parts: seq<Part>,
                                    line: nat) returns (g': Regs)
    requires IsRequestTable(t) && Bytes(buf) && PartsText(buf, from, parts) && NamesStart(buf, parts)
    requires LineBreak(buf, PartsEnd(from, parts), line)
    ensures FirstLineAt(parts, line) <= |buf| && line <= |buf|
    ensures Run(t, relaxed, 13, g, buf, FirstLineAt(parts, line)) == Run(t, relaxed, 13, g', buf, line)
    ensures g'.calls == g.calls + PartCalls(parts) && g'.xmlSent == g.xmlSent && g'.jsonSent == g.jsonSent
    decreases |parts|
  {
    hide IsRequestTable, Run, PartText, StartsName, LineBreak;
    g' := g;
    if parts == [] {
      LineBreakInside(buf, from, line);
      assert g.calls + [] == g.calls;
    } else {
      var rest, f := parts[..|parts| - 1], parts[|parts| - 1];
      assert StartsName(buf, parts[|parts| - 1]);
      var g1 := PartsRun(t, relaxed, g, buf, from, rest, f.nameStart);
      g' := PartRuns(t, relaxed, g1, buf, f, line);
      Assoc3(g.calls, PartCalls(rest), [PartCall(f)]);
    }
  }

  lemma LineBreakInside(buf: string, from: nat, line: nat)
    requires LineBreak(buf, from, line)
    ensures line <= |buf|
  {
  }

  lemma Assoc3(a: seq<Call>, b: seq<Call>, c: seq<Call>)
    ensures a + b + c == a + (b + c)
  {
  }

  // ---- Whole blocks ----

  /** One printed header line from line start to line start. */
  lemma HeaderLine(t: Tables, relaxed: bool, g: Regs, buf: string, p: nat, h: (string, string))
    returns (g': Regs, f: Part)
    requires IsRequestTable(t) && Bytes(buf) && GoodName(h.0) && GoodValue(h.1)
    requires StandsAt(buf, p, PrintHeader(h) + CRLF)
    ensures Run(t, relaxed, 13, g, buf, p) == Run(t, relaxed, 13, g', buf, p + |PrintHeader(h) + CRLF|)
    ensures g'.calls == g.calls + [PartCall(f)] && g'.xmlSent == g.xmlSent && g'.jsonSent == g.jsonSent
    ensures PartHolds(buf, f, h)
  {
    hide IsRequestTable, Run, GoodName, GoodValue, StandsAt, PartHolds, DropBlanks, Blanks, ValueStretchText;
    var colon := p + |h.0|;
    var start := colon + 1 + (|h.1| - |DropBlanks(h.1)|);
    f := Part(p, |h.0|, start, |DropBlanks(h.1)|);
    LineStands(buf, p, h);
    PartStands(buf, p, h);
    ValueStands(buf, colon + 1, h.1);
    NameLine(t, relaxed, g, buf, p, h.0);
    g' := ValueLine(t, relaxed, g.(fieldStart := p, fieldLen := |h.0|), buf, colon + 1, start, colon + 1 + |h.1|,
                    colon + 1 + |h.1| + 2);
  }

  lemma LineStands(buf: string, p: nat, h: (string, string))
    requires StandsAt(buf, p, PrintHeader(h) + CRLF)
    ensures var colon := p + |h.0|;
      && colon + |h.1| + 2 < |buf| && StandsAt(buf, p, h.0) && buf[colon] == ':' && StandsAt(buf, colon + 1, h.1)
      && buf[colon + 1 + |h.1|] == '\r' && buf[colon + 1 + |h.1| + 1] == '\n'
  {
    var line := PrintHeader(h) + CRLF;
    assert forall i :: 0 <= i < |h.0| ==> h.0[i] == line[i];
    assert line[|h.0|] == ':' && line[|h.0| + 1 + |h.1|] == '\r' && line[|h.0| + 1 + |h.1| + 1] == '\n';
    assert forall i :: 0 <= i < |h.1| ==> h.1[i] == line[|h.0| + 1 + i];
  }

  lemma PartStands(buf: string, p: nat, h: (string, string))
    requires StandsAt(buf, p, h.0) && StandsAt(buf, p + |h.0| + 1, h.1)
    ensures var v := DropBlanks(h.1);
      PartHolds(buf, Part(p, |h.0|, p + |h.0| + 1 + (|h.1| - |v|), |v|), h)
  {
    var v := DropBlanks(h.1);
    hide DropBlanks;
    SuffixStands(buf, p + |h.0| + 1, h.1, |h.1| - |v|);
    StandingSlice(buf, p, h.0);
    StandingSlice(buf, p + |h.0| + 1 + (|h.1| - |v|), v);
  }

  lemma StandingSlice(buf: string, p: nat, s: string)
    requires StandsAt(buf, p, s)
    ensures buf[p..p + |s|] == s
  {
  }

  lemma SuffixStands(buf: string, p: nat, s: string, k: nat)
    requires k <= |s| && StandsAt(buf, p, s)
    ensures StandsAt(buf, p + k, s[k..])
  {
    forall i | 0 <= i < |s[k..]| ensures s[k..][i] == buf[p + k + i] {
      assert s[k..][i] == s[k + i];
    }
  }

  lemma PrintHeadersFirst(hs: Headers)
    requires hs != []
    ensures PrintHeaders(hs) + CRLF == (PrintHeader(hs[0]) + CRLF) + (PrintHeaders(hs[1..]) + CRLF)
    ensures |PrintHeaders(hs)| == |PrintHeader(hs[0]) + CRLF| + |PrintHeaders(hs[1..])|
  {
    hide PrintHeader, CRLF;
  }

  lemma CallsPrepend(base: seq<Call>, f: Part, others: seq<Part>, last: Call)
    ensures base + [PartCall(f)] + PartCalls(others) + [last] == base + PartCalls([f] + others) + [last]
  {
    hide PartCall;
    assert PartCalls([f] + others) == [PartCall(f)] + PartCalls(others);
  }

  ghost predicate PartsHold(buf: string, parts: seq<Part>, hs: Headers) {
    |parts| == |hs| && forall k :: 0 <= k < |hs| ==> PartHolds(buf, parts[k], hs[k])
  }

  lemma HoldPrepend(buf: string, f: Part, others: seq<Part>, hs: Headers)
    requires hs != [] && PartHolds(buf, f, hs[0]) && PartsHold(buf, others, hs[1..])
    ensures PartsHold(buf, [f] + others, hs)
  {
    hide PartHolds;
    assert forall k :: 1 <= k < |hs| ==> hs[k] == hs[1..][k - 1];
  }

  /** A printed header block, from a line start to the end of its empty line. */
  lemma {:induction false} PrintedHeadersRun(t: Tables, relaxed: bool, g: Regs, buf: string, p: nat, hs: Headers)
    returns (parts: seq<Part>)
    requires IsRequestTable(t) && Bytes(buf) && GoodHeaders(hs) && !g.xmlSent && !g.jsonSent
    requires StandsAt(buf, p, PrintHeaders(hs) + CRLF)
    ensures PartsHold(buf, parts, hs)
    ensures var r := Run(t, relaxed, 13, g, buf, p);
      var end := p + |PrintHeaders(hs)| + 2;
      && r.cs == FIRST_FINAL && r.done && r.p == end && r.regs.bodyStart == end
      && r.regs.calls == g.calls + PartCalls(parts) + [HeaderDone(end)]
    decreases |hs|
  {
    hide IsRequestTable, Run, PartHolds, GoodName, GoodValue, StandsAt, PrintHeader;
    if hs == [] {
      parts := [];
      assert PrintHeaders(hs) + CRLF == CRLF;
      BreakStands(buf, p);
      LastLine(t, relaxed, g, buf, p, p + 2);
      assert g.calls + [] == g.calls;
    } else {
      hide PrintHeaders, PartCalls, PartCall, PartsHold, CRLF;
      var line, rest := PrintHeader(hs[0]) + CRLF, PrintHeaders(hs[1..]) + CRLF;
      PrintHeadersFirst(hs);
      SplitStanding(buf, p, line, rest);
      var g', f := HeaderLine(t, relaxed, g, buf, p, hs[0]);
      var others := PrintedHeadersRun(t, relaxed, g', buf, p + |line|, hs[1..]);
      parts := [f] + others;
      CallsPrepend(g.calls, f, others, HeaderDone(p + |PrintHeaders(hs)| + 2));
      HoldPrepend(buf, f, others, hs);
    }
  }

  lemma BreakStands(buf: string, p: nat)
    requires StandsAt(buf, p, CRLF)
    ensures p + 2 <= |buf| && buf[p] == '\r' && buf[p + 1] == '\n' && LineBreak(buf, p, p + 2)
  {
    assert CRLF[0] == buf[p + 0] && CRLF[1] == buf[p + 1];
  }

  lemma SplitStanding(buf: string, p: nat, a: string, b: string)
    requires StandsAt(buf, p, a + b)
    ensures StandsAt(buf, p, a) && StandsAt(buf, p + |a|, b)
  {
    assert forall i :: 0 <= i < |a| ==> a[i] == (a + b)[i];
    assert forall i :: 0 <= i < |b| ==> b[i] == (a + b)[|a| + i];
  }
}
