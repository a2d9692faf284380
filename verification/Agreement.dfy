/**
 The two HTTP parsers side by side.

 On a printed header block both report one list each, and the lists are equal exactly when no value has a colon
 inside and blanks are all there is to trim. And whenever the incremental parser finishes a request whose lines
 end in CR LF, the text parser reads the same bytes as the same method, target, version and headers.
 */
module Agreement {
  import opened Prelude
  import opened TableSearch
  import opened ParserEngine
  import opened RequestTable
  import opened RequestText
  import opened RequestTheorems
  import opened Splitting
  import opened TextParser
  import opened HeaderRuns

  // ---- The list the incremental parser reports ----

  ghost predicate InBuffer(buf: string, parts: seq<Part>) {
    forall k :: 0 <= k < |parts| ==> parts[k].nameStart + parts[k].nameLen <= |buf| && ValueEnd(parts[k]) <= |buf|
  }

  /** Names and values as the slices of `http_field` show them. */
  ghost function Reported(buf: string, parts: seq<Part>): (r: Headers)
    requires InBuffer(buf, parts)
    ensures |r| == |parts|
    ensures forall k :: 0 <= k < |parts| ==> r[k] == (NameOf(buf, parts[k]), ValueOfPart(buf, parts[k]))
  {
    seq(|parts|, k requires 0 <= k < |parts| => (NameOf(buf, parts[k]), ValueOfPart(buf, parts[k])))
  }

  function Unblanked(hs: Headers): (r: Headers)
    ensures |r| == |hs| && forall k :: 0 <= k < |hs| ==> r[k] == (hs[k].0, DropBlanks(hs[k].1))
  {
    seq(|hs|, k requires 0 <= k < |hs| => (hs[k].0, DropBlanks(hs[k].1)))
  }

  // ---- Printed header blocks ----

  ghost predicate AllBlank(s: string) {
    forall i :: 0 <= i < |s| ==> s[i] == ' ' || s[i] == '\t'
  }

  /** Both parsers see a header alike. */
  predicate SeenAlike(h: (string, string)) {
    ':' !in h.1 && TrimWhitespace(h.1) == DropBlanks(h.1)
  }

  /** Trimmed values without a colon are seen alike, whatever blanks stand before them. */
  lemma TrimmedValuesAreSeenAlike(name: string, blanks: string, v: string)
    requires AllBlank(blanks) && Trimmed(v) && ':' !in v
    ensures SeenAlike((name, blanks + v)) && DropBlanks(blanks + v) == v
  {
    var s := blanks + v;
    hide TrimWhitespace;
    assert s == blanks + v + "";
    TrimIsUnique(s, blanks, v, "");
    var r := DropBlanks(s);
    hide DropBlanks;
    var k := |s| - |r|;
    assert r != [] ==> r[0] == s[k];
    assert v != [] ==> v[0] == s[|blanks|];
    assert k == |blanks|;
  }

  lemma NamesHaveNoColon(n: string)
    requires GoodName(n)
    ensures ':' !in n && '\0' !in n
  {
    assert forall i :: 0 <= i < |n| ==> TokenByte(Signed(n[i]));
  }

  lemma GoodValueIsPlain(v: string)
    requires GoodValue(v)
    ensures Plain(v)
  {
    NoCrNoBreak(v);
  }

  /** One header, as the text parser keeps it and as the incremental parser reports it. */
  lemma KeptHeaderIsUnblanked(h: (string, string))
    requires ':' !in h.0
    ensures |KeptHeader(h)| <= 1
    ensures SeenAlike(h) <==> KeptHeader(h) == [(h.0, DropBlanks(h.1))]
  {
    hide TrimWhitespace, DropBlanks;
  }

  lemma {:induction false} KeptIsUnblanked(hs: Headers)
    requires forall k :: 0 <= k < |hs| ==> ':' !in hs[k].0
    ensures |Kept(hs)| <= |hs|
    ensures Kept(hs) == Unblanked(hs) <==> forall k :: 0 <= k < |hs| ==> SeenAlike(hs[k])
    decreases |hs|
  {
    hide SeenAlike, KeptHeader, DropBlanks, TrimWhitespace;
    if hs != [] {
      var h, rest := hs[0], hs[1..];
      KeptHeaderIsUnblanked(h);
      KeptIsUnblanked(rest);
      assert Unblanked(hs) == [(h.0, DropBlanks(h.1))] + Unblanked(rest);
      ConsExactly(KeptHeader(h), (h.0, DropBlanks(h.1)), Kept(rest), Unblanked(rest));
      assert forall i :: 0 <= i < |rest| ==> rest[i] == hs[i + 1];
      assert forall i :: 1 <= i < |hs| ==> hs[i] == rest[i - 1];
    }
  }

  /** A printed head with a block of readable headers, for both parsers. */
  ghost predicate Printable(a: string, b: string, c: string, hs: Headers) {
    && Plain(a) && Plain(b) && Plain(c) && ' ' !in a && ' ' !in b && GoodHeaders(hs)
    && (forall k :: 0 <= k < |hs| ==> BreakFree(hs[k].0))
    && Bytes(PrintHead(a, b, c, hs))
  }

  lemma BlockStands(a: string, b: string, c: string, hs: Headers)
    ensures StandsAt(PrintHead(a, b, c, hs), |FirstLine(a, b, c)| + 2, PrintHeaders(hs) + CRLF)
    ensures |PrintHead(a, b, c, hs)| == |FirstLine(a, b, c)| + 2 + |PrintHeaders(hs)| + 2
  {
    var front, block := FirstLine(a, b, c) + CRLF, PrintHeaders(hs) + CRLF;
    assert PrintHead(a, b, c, hs) == front + block;
    assert forall i :: 0 <= i < |block| ==> block[i] == (front + block)[|front| + i];
  }

  /** The text parser on a printed block: what it keeps is the unblanked block exactly when all is seen alike. */
  lemma TextReadsBlock(a: string, b: string, c: string, hs: Headers)
    requires Printable(a, b, c, hs)
    ensures var r := Parse(PrintHead(a, b, c, hs));
      && r.Complete? && (r.request.headers == Unblanked(hs) <==> forall k :: 0 <= k < |hs| ==> SeenAlike(hs[k]))
  {
    hide GoodName, GoodValue, BreakFree, Parse, PrintHead, Kept, SeenAlike, DropBlanks;
    forall k | 0 <= k < |hs| ensures PlainHeader(hs[k]) && ':' !in hs[k].0 {
      NamesHaveNoColon(hs[k].0);
      GoodValueIsPlain(hs[k].1);
    }
    PrintedParses(a, b, c, hs);
    KeptIsUnblanked(hs);
  }

  lemma HeldPartsReport(buf: string, parts: seq<Part>, hs: Headers)
    requires PartsHold(buf, parts, hs)
    ensures InBuffer(buf, parts) && Reported(buf, parts) == Unblanked(hs)
  {
    hide DropBlanks;
    assert forall k :: 0 <= k < |hs| ==> PartHolds(buf, parts[k], hs[k]);
  }

  /**
   Both parsers on one header block: the automaton, started at the block, finishes and reports one header list;
   the text parser reports another; and they are equal exactly when every header is seen alike.
   */
  lemma BlocksAgreeExactly(t: Tables, relaxed: bool, g: Regs, a: string, b: string, c: string, hs: Headers)
    returns (parts: seq<Part>)
    requires IsRequestTable(t) && Printable(a, b, c, hs) && !g.xmlSent && !g.jsonSent
    ensures var buf := PrintHead(a, b, c, hs);
      var r := Run(t, relaxed, 13, g, buf, |FirstLine(a, b, c)| + 2);
      && r.cs == FIRST_FINAL && r.done && r.p == |buf|
      && r.regs.calls == g.calls + PartCalls(parts) + [HeaderDone(|buf|)]
      && InBuffer(buf, parts) && Parse(buf).Complete?
      && (Reported(buf, parts) == Parse(buf).request.headers <==> forall k :: 0 <= k < |hs| ==> SeenAlike(hs[k]))
  {
    var buf := PrintHead(a, b, c, hs);
    hide IsRequestTable, Run, Parse, PrintHead, Kept, GoodName, GoodValue, BreakFree, StandsAt, SeenAlike, FirstLine,
      PartsHold, InBuffer, Reported, Unblanked, PartCalls, PrintHeaders;
    BlockStands(a, b, c, hs);
    TextReadsBlock(a, b, c, hs);
    parts := PrintedHeadersRun(t, relaxed, g, buf, |FirstLine(a, b, c)| + 2, hs);
    HeldPartsReport(buf, parts, hs);
  }

  // ---- Finished requests ----

  /** The header as it stands in the text, blanks before the value included. */
  ghost function RawHeader(buf: string, f: Part): (string, string)
    requires f.nameStart + f.nameLen + 1 <= f.valueStart && ValueEnd(f) <= |buf|
  {
    (NameOf(buf, f), buf[f.nameStart + f.nameLen + 1..ValueEnd(f)])
  }

  /** Every line break in front of the parts is CR LF, and no name has one inside. */
  ghost predicate CrlfLines(buf: string, from: nat, parts: seq<Part>) {
    parts == [] ||
    (var rest, f := parts[..|parts| - 1], parts[|parts| - 1];
     && CrlfLines(buf, from, rest) && f.nameStart == PartsEnd(from, rest) + 2
     && f.nameStart + f.nameLen <= |buf| && BreakFree(NameOf(buf, f)))
  }

  ghost predicate WellPlaced(buf: string, parts: seq<Part>) {
    forall k :: 0 <= k < |parts| ==>
      parts[k].nameStart + parts[k].nameLen + 1 <= parts[k].valueStart && ValueEnd(parts[k]) <= |buf|
  }

  ghost function RawHeaders(buf: string, parts: seq<Part>): (r: Headers)
    requires WellPlaced(buf, parts)
    ensures |r| == |parts| && forall k :: 0 <= k < |parts| ==> r[k] == RawHeader(buf, parts[k])
  {
    seq(|parts|, k requires 0 <= k < |parts| => RawHeader(buf, parts[k]))
  }

  lemma {:induction false} PartsArePlaced(buf: string, from: nat, parts: seq<Part>)
    requires PartsText(buf, from, parts)
    ensures WellPlaced(buf, parts) && InBuffer(buf, parts)
    ensures from <= PartsEnd(from, parts) && (parts != [] ==> PartsEnd(from, parts) <= |buf|)
    decreases |parts|
  {
    if parts != [] {
      PartsArePlaced(buf, from, parts[..|parts| - 1]);
    }
  }

  lemma {:induction false} PrintAppend(hs: Headers, h: (string, string))
    ensures PrintHeaders(hs + [h]) == PrintHeaders(hs) + PrintHeader(h) + CRLF
    decreases |hs|
  {
    if hs == [] {
      assert [h][1..] == [] && hs + [h] == [h];
      assert PrintHeaders([h]) == PrintHeader(h) + CRLF + "";
    } else {
      PrintAppend(hs[1..], h);
      assert (hs + [h])[1..] == hs[1..] + [h];
      assert PrintHeader(hs[0]) + CRLF + (PrintHeaders(hs[1..]) + PrintHeader(h) + CRLF)
          == PrintHeader(hs[0]) + CRLF + PrintHeaders(hs[1..]) + PrintHeader(h) + CRLF;
    }
  }

  lemma LinePrints(buf: string, f: Part)
    requires PartText(buf, f)
    ensures buf[f.nameStart..ValueEnd(f)] == PrintHeader(RawHeader(buf, f))
  {
    var colon := f.nameStart + f.nameLen;
    assert buf[f.nameStart..ValueEnd(f)] == buf[f.nameStart..colon] + [buf[colon]] + buf[colon + 1..ValueEnd(f)];
  }

  lemma BreakIs(buf: string, from: nat, to: nat)
    requires LineBreak(buf, from, to) && to == from + 2
    ensures buf[from..to] == CRLF
  {
  }

  lemma RawAppend(buf: string, parts: seq<Part>)
    requires parts != [] && WellPlaced(buf, parts)
    ensures var rest, f := parts[..|parts| - 1], parts[|parts| - 1];
      WellPlaced(buf, rest) && RawHeaders(buf, parts) == RawHeaders(buf, rest) + [RawHeader(buf, f)]
  {
  }

  lemma Cut(buf: string, a: nat, b: nat, c: nat, d: nat)
    requires a <= b <= c <= d <= |buf|
    ensures buf[a..d] == buf[a..b] + buf[b..c] + buf[c..d]
  {
  }

  /** The header lines of a view are the printed raw headers, each behind a CR LF. */
  lemma {:induction false} LinesPrint(buf: string, from: nat, parts: seq<Part>, line: nat)
    requires PartsText(buf, from, parts) && CrlfLines(buf, from, parts)
    requires LineBreak(buf, PartsEnd(from, parts), line) && line == PartsEnd(from, parts) + 2
    ensures WellPlaced(buf, parts) && from <= line
    ensures buf[from..line] == CRLF + PrintHeaders(RawHeaders(buf, parts))
    decreases |parts|
  {
    PartsArePlaced(buf, from, parts);
    BreakIs(buf, PartsEnd(from, parts), line);
    if parts == [] {
      assert RawHeaders(buf, parts) == [];
      assert CRLF + "" == CRLF;
    } else {
      LastLinePrints(buf, from, parts, line);
    }
  }

  lemma {:induction false} LastLinePrints(buf: string, from: nat, parts: seq<Part>, line: nat)
    requires parts != [] && PartsText(buf, from, parts) && CrlfLines(buf, from, parts) && WellPlaced(buf, parts)
    requires line <= |buf| && line == PartsEnd(from, parts) + 2 && buf[line - 2..line] == CRLF
    ensures from <= line && buf[from..line] == CRLF + PrintHeaders(RawHeaders(buf, parts))
    decreases |parts|, 0
  {
    var rest, f := parts[..|parts| - 1], parts[|parts| - 1];
    assert PartsText(buf, from, rest) && CrlfLines(buf, from, rest) && PartText(buf, f)
        && LineBreak(buf, PartsEnd(from, rest), f.nameStart) && f.nameStart == PartsEnd(from, rest) + 2;
    assert f.nameStart <= ValueEnd(f) == line - 2;
    hide PartsText, CrlfLines, PartText, LineBreak, PrintHeaders, PrintHeader, RawHeaders, RawHeader, WellPlaced, CRLF;
    LinesPrint(buf, from, rest, f.nameStart);
    LinePrints(buf, f);
    RawAppend(buf, parts);
    PrintAppend(RawHeaders(buf, rest), RawHeader(buf, f));
    Cut(buf, from, f.nameStart, ValueEnd(f), line);
    Regroup(CRLF, PrintHeaders(RawHeaders(buf, rest)), PrintHeader(RawHeader(buf, f)), CRLF);
  }

  // ---- The first line ----

  ghost predicate LineFits(buf: string, h: Head) {
    h.methodLen < TargetEnd(h) && VersionEnd(h) <= |buf|
  }

  ghost function MethodOf(buf: string, h: Head): string
    requires LineFits(buf, h)
  {
    buf[..h.methodLen]
  }

  /** Everything between the two spaces: the scheme if there is one, path, query and fragment. */
  ghost function TargetOf(buf: string, h: Head): string
    requires LineFits(buf, h)
  {
    buf[h.methodLen + 1..TargetEnd(h)]
  }

  ghost function VersionOf(buf: string, h: Head): string
    requires LineFits(buf, h)
  {
    buf[TargetEnd(h) + 1..VersionEnd(h)]
  }

  lemma LineHasRoom(buf: string, h: Head, relaxed: bool)
    requires HeadText(buf, h, relaxed)
    ensures LineFits(buf, h)
  {
    hide MethodText, SchemeText, Readable;
  }

  /** No space and no line-break character. */
  ghost predicate Word(s: string) {
    forall i :: 0 <= i < |s| ==> s[i] != ' ' && s[i] != '\r' && s[i] != '\0'
  }

  lemma WordIsPlain(s: string)
    requires Word(s)
    ensures Plain(s) && ' ' !in s
  {
    NoCrNoBreak(s);
  }

  lemma MethodIsWord(buf: string, h: Head, relaxed: bool)
    requires HeadText(buf, h, relaxed)
    ensures LineFits(buf, h) && Word(MethodOf(buf, h))
  {
    LineHasRoom(buf, h, relaxed);
    assert forall i :: 0 <= i < h.methodLen ==> MethodByte(Signed(buf[i]));
  }

  /** A slice made of word characters. */
  ghost predicate WordAt(buf: string, from: nat, to: nat) {
    from <= to <= |buf| && forall i :: from <= i < to ==> buf[i] != ' ' && buf[i] != '\r' && buf[i] != '\0'
  }

  lemma WithoutIsWord(buf: string, from: nat, to: nat, ends: string)
    requires Without(buf, from, to, ends) && ' ' in ends && '\r' in ends && '\0' in ends
    ensures WordAt(buf, from, to)
  {
  }

  lemma SchemeIsWord(buf: string, h: Head)
    requires StartText(buf, h)
    ensures WordAt(buf, h.methodLen + 1, h.uriStart)
  {
  }

  lemma EndsHaveSpaces()
    ensures ' ' in PATH_ENDS && '\r' in PATH_ENDS && '\0' in PATH_ENDS
    ensures ' ' in TEXT_ENDS && '\r' in TEXT_ENDS && '\0' in TEXT_ENDS
  {
    assert PATH_ENDS[0] == ' ' && PATH_ENDS[3] == '\r' && PATH_ENDS[5] == '\0';
    assert TEXT_ENDS[0] == ' ' && TEXT_ENDS[2] == '\r' && TEXT_ENDS[4] == '\0';
  }

  lemma WordOn(buf: string, from: nat, at: nat, to: nat)
    requires WordAt(buf, from, at) && at < |buf| && WordAt(buf, at + 1, to) && buf[at] in "?#"
    ensures WordAt(buf, from, to)
  {
  }

  /** The parts of a target, from its scheme to its fragment. */
  lemma TargetIsWordAt(buf: string, h: Head, relaxed: bool)
    requires HeadText(buf, h, relaxed)
    ensures WordAt(buf, h.methodLen + 1, TargetEnd(h))
  {
    SchemeIsWord(buf, h);
    EndsHaveSpaces();
    hide StartText, Without, Readable, Bracketed, PATH_ENDS, TEXT_ENDS;
    WithoutIsWord(buf, h.uriStart, PathEnd(h), PATH_ENDS);
    assert WordAt(buf, h.methodLen + 1, PathEnd(h));
    if h.query.Some? {
      WithoutIsWord(buf, PathEnd(h) + 1, UriEnd(h), TEXT_ENDS);
      WordOn(buf, h.methodLen + 1, PathEnd(h), UriEnd(h));
    }
    if h.fragment.Some? {
      WithoutIsWord(buf, UriEnd(h) + 1, TargetEnd(h), TEXT_ENDS);
      WordOn(buf, h.methodLen + 1, UriEnd(h), TargetEnd(h));
    }
  }

  lemma TargetIsWord(buf: string, h: Head, relaxed: bool)
    requires HeadText(buf, h, relaxed)
    ensures LineFits(buf, h) && h.methodLen < TargetEnd(h) && Word(TargetOf(buf, h))
  {
    LineHasRoom(buf, h, relaxed);
    TargetIsWordAt(buf, h, relaxed);
    hide HeadText, TargetEnd;
  }

  lemma VersionIsWord(buf: string, h: Head, relaxed: bool)
    requires HeadText(buf, h, relaxed)
    ensures LineFits(buf, h) && Word(VersionOf(buf, h))
  {
    LineHasRoom(buf, h, relaxed);
    var v, from, text := VersionOf(buf, h), TargetEnd(h) + 1, buf[TargetEnd(h) + 1..VersionEnd(h) - 1];
    assert text == VERSION_TEXT && (buf[from + 7] == '0' || buf[from + 7] == '1');
    hide HeadText, TargetEnd;
    forall i | 0 <= i < 8 ensures v[i] != ' ' && v[i] != '\r' && v[i] != '\0' {
      assert v[i] == buf[from + i];
      if i < 7 {
        assert buf[from + i] == text[i] == VERSION_TEXT[i];
      }
    }
  }

  // ---- The header lists ----

  /** Blanks in front of a value are trimmed away and hold no colon, so the text parser does not see them. */
  lemma BlanksDoNotMatter(name: string, blanks: string, v: string)
    requires AllBlank(blanks)
    ensures KeptHeader((name, blanks + v)) == KeptHeader((name, v))
  {
    var a, b := TrimSplits(v);
    hide TrimWhitespace, Trimmed;
    var mid := TrimWhitespace(v);
    assert blanks + v == blanks + a + mid + b;
    assert AllSpace(blanks + a);
    TrimIsUnique(blanks + v, blanks + a, mid, b);
    assert ':' in blanks + v <==> ':' in v;
  }

  lemma CutTwo(buf: string, a: nat, b: nat, c: nat)
    requires a <= b <= c <= |buf|
    ensures buf[a..c] == buf[a..b] + buf[b..c]
  {
  }

  /** The slices of a header's text. */
  lemma PartSlices(buf: string, f: Part)
    requires PartText(buf, f)
    ensures '\0' !in NameOf(buf, f)
    ensures AllBlank(buf[f.nameStart + f.nameLen + 1..f.valueStart]) && GoodValue(ValueOfPart(buf, f))
  {
    var n, v := NameOf(buf, f), ValueOfPart(buf, f);
    assert forall i :: 0 <= i < |n| ==> n[i] == buf[f.nameStart + i];
    assert forall i :: 0 <= i < |v| ==> v[i] == buf[f.valueStart + i];
  }

  lemma BlanksAreGood(blanks: string, v: string)
    requires AllBlank(blanks) && GoodValue(v)
    ensures GoodValue(blanks + v)
  {
  }

  lemma RawSplits(buf: string, f: Part)
    requires PartText(buf, f)
    ensures RawHeader(buf, f) ==
            (NameOf(buf, f), buf[f.nameStart + f.nameLen + 1..f.valueStart] + ValueOfPart(buf, f))
  {
    CutTwo(buf, f.nameStart + f.nameLen + 1, f.valueStart, ValueEnd(f));
  }

  lemma RawKept(buf: string, f: Part)
    requires PartText(buf, f)
    ensures KeptHeader(RawHeader(buf, f)) == KeptHeader((NameOf(buf, f), ValueOfPart(buf, f)))
    ensures '\0' !in NameOf(buf, f) && Plain(RawHeader(buf, f).1)
  {
    var blanks, v := buf[f.nameStart + f.nameLen + 1..f.valueStart], ValueOfPart(buf, f);
    PartSlices(buf, f);
    RawSplits(buf, f);
    hide *;
    BlanksAreGood(blanks, v);
    GoodValueIsPlain(blanks + v);
    BlanksDoNotMatter(NameOf(buf, f), blanks, v);
  }

  lemma {:induction false} KeptPointwise(a: Headers, b: Headers)
    requires |a| == |b| && forall k :: 0 <= k < |a| ==> KeptHeader(a[k]) == KeptHeader(b[k])
    ensures Kept(a) == Kept(b)
    decreases |a|
  {
    hide KeptHeader;
    if a != [] {
      KeptPointwise(a[1..], b[1..]);
    }
  }

  lemma {:induction false} EveryPart(buf: string, from: nat, parts: seq<Part>)
    requires PartsText(buf, from, parts) && CrlfLines(buf, from, parts)
    ensures forall k :: 0 <= k < |parts| ==>
      parts[k].nameStart + parts[k].nameLen <= |buf| && PartText(buf, parts[k]) && BreakFree(NameOf(buf, parts[k]))
    decreases |parts|
  {
    if parts != [] {
      hide PartText, BreakFree;
      EveryPart(buf, from, parts[..|parts| - 1]);
    }
  }

  lemma RawHeadersKept(buf: string, from: nat, parts: seq<Part>)
    requires PartsText(buf, from, parts) && CrlfLines(buf, from, parts)
    requires WellPlaced(buf, parts) && InBuffer(buf, parts)
    ensures PlainHeaders(RawHeaders(buf, parts))
    ensures Kept(RawHeaders(buf, parts)) == Kept(Reported(buf, parts))
  {
    hide KeptHeader, BreakFree, PartText, PartsText, CrlfLines, NameOf, ValueOfPart;
    EveryPart(buf, from, parts);
    forall k | 0 <= k < |parts|
      ensures PlainHeader(RawHeaders(buf, parts)[k])
      ensures KeptHeader(RawHeaders(buf, parts)[k]) == KeptHeader(Reported(buf, parts)[k])
    {
      RawKept(buf, parts[k]);
    }
    KeptPointwise(RawHeaders(buf, parts), Reported(buf, parts));
  }

  // ---- Whole requests ----

  /** Every line of a finished request ends in CR LF, the empty one included, and no name has one inside. */
  ghost predicate CrlfThroughout(buf: string, v: View, end: nat) {
    && CrlfLines(buf, VersionEnd(v.head), v.parts)
    && end == PartsEnd(VersionEnd(v.head), v.parts) + 4
  }

  lemma TakeOne(buf: string, n: nat)
    requires n < |buf|
    ensures buf[..n + 1] == buf[..n] + [buf[n]]
  {
  }

  lemma TakeMore(buf: string, m: nat, n: nat)
    requires m <= n <= |buf|
    ensures buf[..n] == buf[..m] + buf[m..n]
  {
  }

  lemma ThreeWords(buf: string, a: nat, b: nat, c: nat)
    requires a < b < c <= |buf|
    ensures buf[..c] == buf[..a] + [buf[a]] + buf[a + 1..b] + [buf[b]] + buf[b + 1..c]
  {
    TakeOne(buf, a);
    TakeMore(buf, a + 1, b);
    TakeOne(buf, b);
    TakeMore(buf, b + 1, c);
  }

  lemma FirstLinePrints(buf: string, h: Head, relaxed: bool)
    requires HeadText(buf, h, relaxed)
    ensures LineFits(buf, h) && buf[..VersionEnd(h)] == FirstLine(MethodOf(buf, h), TargetOf(buf, h), VersionOf(buf, h))
  {
    LineHasRoom(buf, h, relaxed);
    TargetIsWord(buf, h, relaxed);
    assert buf[h.methodLen] == ' ' && buf[TargetEnd(h)] == ' ';
    hide HeadText, TargetEnd;
    ThreeWords(buf, h.methodLen, TargetEnd(h), VersionEnd(h));
  }

  lemma LastLineStart(buf: string, v: View, end: nat) returns (line: nat)
    requires CrlfThroughout(buf, v, end)
    requires exists line :: LineBreak(buf, PartsEnd(VersionEnd(v.head), v.parts), line) && LineBreak(buf, line, end)
    ensures LineBreak(buf, PartsEnd(VersionEnd(v.head), v.parts), line) && LineBreak(buf, line, end)
    ensures line == PartsEnd(VersionEnd(v.head), v.parts) + 2 && end == line + 2 && end <= |buf|
  {
    line :| LineBreak(buf, PartsEnd(VersionEnd(v.head), v.parts), line) && LineBreak(buf, line, end);
  }

  lemma Assembled(buf: string, from: nat, line: nat, end: nat, first: string, lines: string)
    requires from <= line <= end <= |buf|
    requires buf[..from] == first && buf[from..line] == CRLF + lines && buf[line..end] == CRLF
    ensures buf[..end] == first + CRLF + lines + CRLF
  {
    assert buf[..end] == buf[..from] + buf[from..line] + buf[line..end];
    Regroup(first, CRLF, lines, CRLF);
  }

  /** The bytes of a finished request with CR LF lines are its printed parts. */
  lemma RequestPrints(buf: string, v: View, end: nat, relaxed: bool)
    requires HeadText(buf, v.head, relaxed) && PartsText(buf, VersionEnd(v.head), v.parts)
    requires CrlfThroughout(buf, v, end)
    requires exists line :: LineBreak(buf, PartsEnd(VersionEnd(v.head), v.parts), line) && LineBreak(buf, line, end)
    ensures end <= |buf| && WellPlaced(buf, v.parts) && LineFits(buf, v.head)
    ensures buf[..end] == PrintHead(MethodOf(buf, v.head), TargetOf(buf, v.head), VersionOf(buf, v.head),
                                    RawHeaders(buf, v.parts))
  {
    LineHasRoom(buf, v.head, relaxed);
    var from := VersionEnd(v.head);
    var line := LastLineStart(buf, v, end);
    hide HeadText, LineFits, PartsText, CrlfLines, LineBreak, PrintHeaders, RawHeaders, MethodOf, TargetOf, VersionOf,
      FirstLine, WellPlaced, CRLF, VersionEnd, PartsEnd;
    FirstLinePrints(buf, v.head, relaxed);
    LinesPrint(buf, from, v.parts, line);
    BreakIs(buf, line, end);
    Assembled(buf, from, line, end, FirstLine(MethodOf(buf, v.head), TargetOf(buf, v.head), VersionOf(buf, v.head)),
              PrintHeaders(RawHeaders(buf, v.parts)));
  }

  /**
   The two parsers on whole requests: when the incremental parser has finished a request whose lines end in
   CR LF, the text parser reads the bytes up to the body as the same method, target and version, and as the
   headers that were reported less those with a colon in the value, trimmed. So it reports the very same list
   exactly when no reported value has a colon or white space at its ends.
   */
  lemma FinishedRequestsAgree(t: Tables, relaxed: bool, garbage: nat, buf: string) returns (v: View)
    requires IsRequestTable(t) && Bytes(buf)
    requires FreshRun(t, relaxed, garbage, buf).cs == FIRST_FINAL
    ensures var r := FreshRun(t, relaxed, garbage, buf);
      && HeadText(buf, v.head, relaxed) && LineFits(buf, v.head) && InBuffer(buf, v.parts)
      && r.regs.calls == HeadCalls(v.head) + PartCalls(v.parts) + [HeaderDone(r.p)]
    ensures var r, hs := FreshRun(t, relaxed, garbage, buf), Reported(buf, v.parts);
      CrlfThroughout(buf, v, r.p) ==>
        && Parse(buf[..r.p]) ==
           Complete(Request(MethodOf(buf, v.head), TargetOf(buf, v.head), VersionOf(buf, v.head), Kept(hs)))
        && (Kept(hs) == hs <==> forall k :: 0 <= k < |hs| ==> Stable(hs[k]))
  {
    v := FinishedRequestIsItsParts(t, relaxed, garbage, buf);
    LineHasRoom(buf, v.head, relaxed);
    var r := FreshRun(t, relaxed, garbage, buf);
    hide HeadText, LineFits, PartsText, FreshRun, HeadCalls, PartCalls, Reported, CrlfThroughout, Kept, Parse,
      LineBreak, IsRequestTable, Stable, MethodOf, TargetOf, VersionOf;
    PartsArePlaced(buf, VersionEnd(v.head), v.parts);
    if CrlfThroughout(buf, v, r.p) {
      RequestReads(buf, v, r.p, relaxed);
      KeptExactly(Reported(buf, v.parts));
    }
  }

  lemma RequestReads(buf: string, v: View, end: nat, relaxed: bool)
    requires HeadText(buf, v.head, relaxed) && PartsText(buf, VersionEnd(v.head), v.parts)
    requires CrlfThroughout(buf, v, end)
    requires exists line :: LineBreak(buf, PartsEnd(VersionEnd(v.head), v.parts), line) && LineBreak(buf, line, end)
    requires InBuffer(buf, v.parts)
    ensures end <= |buf| && LineFits(buf, v.head)
    ensures Parse(buf[..end]) ==
            Complete(Request(MethodOf(buf, v.head), TargetOf(buf, v.head), VersionOf(buf, v.head),
                             Kept(Reported(buf, v.parts))))
  {
    LineHasRoom(buf, v.head, relaxed);
    assert CrlfLines(buf, VersionEnd(v.head), v.parts);
    hide HeadText, LineFits, PartsText, CrlfThroughout, CrlfLines, LineBreak, Kept, Parse, MethodOf, TargetOf,
      VersionOf, Split, RawHeaders, Reported, PrintHead, BreakFree, Word, InBuffer, WellPlaced;
    RequestPrints(buf, v, end, relaxed);
    RawHeadersKept(buf, VersionEnd(v.head), v.parts);
    var a, b, c := MethodOf(buf, v.head), TargetOf(buf, v.head), VersionOf(buf, v.head);
    MethodIsWord(buf, v.head, relaxed);
    TargetIsWord(buf, v.head, relaxed);
    VersionIsWord(buf, v.head, relaxed);
    WordIsPlain(a);
    WordIsPlain(b);
    WordIsPlain(c);
    PrintedParses(a, b, c, RawHeaders(buf, v.parts));
    CharBorderFree(' ');
    SplitClean(c, " ");
  }
}
