/**
 Printed requests through both parsers.

 A method, a target with its scheme, host, query and fragment or without, a version and good headers, printed one
 behind the other: the incremental parser finishes with exactly these parts, and the text parser reads the same.
 */
module PrintedRequests {
  import opened Prelude
  import opened TableSearch
  import opened ParserEngine
  import opened RequestTable
  import opened RequestText
  import opened RequestPaths
  import opened RequestTheorems
  import opened RequestLines
  import opened Splitting
  import opened TextParser
  import opened HeaderRuns
  import opened Agreement

  // ---- Printed requests ----

  /** The parts of a request line; a host is at the front of the path. */
  datatype Line = Line(verb: string, scheme: Option<string>, path: string, query: Option<string>,
                       fragment: Option<string>, version: string)

  function Marked(mark: char, text: Option<string>): string {
    if text.Some? then [mark] + text.value else ""
  }

  function Front(scheme: Option<string>): string {
    if scheme.Some? then scheme.value + ":" else ""
  }

  function Target(l: Line): string {
    Front(l.scheme) + l.path + Marked('?', l.query) + Marked('#', l.fragment)
  }

  function Size(text: Option<string>): Option<nat> {
    if text.Some? then Some(|text.value|) else None
  }

  ghost predicate GoodMethod(m: string) {
    1 <= |m| <= 20 && forall i :: 0 <= i < |m| ==> MethodByte(Signed(m[i]))
  }

  ghost predicate GoodScheme(scheme: Option<string>) {
    scheme.Some? ==> SchemeText(scheme.value, 0, |scheme.value|)
  }

  ghost predicate GoodPath(path: string, schemed: bool, relaxed: bool) {
    Readable(path, 0, |path|, false, relaxed) && PathForm(path, 0, |path|, schemed)
  }

  ghost predicate GoodText(text: Option<string>, relaxed: bool) {
    text.Some? ==> Readable(text.value, 0, |text.value|, true, relaxed)
  }

  ghost predicate GoodLine(l: Line, relaxed: bool) {
    && GoodMethod(l.verb) && GoodScheme(l.scheme) && GoodPath(l.path, l.scheme.Some?, relaxed)
    && GoodText(l.query, relaxed) && GoodText(l.fragment, relaxed) && l.version in ["HTTP/1.0", "HTTP/1.1"]
  }

  // ---- Texts in place ----

  lemma {:induction false} ReadableStands(buf: string, p: nat, s: string, n: nat, question: bool, relaxed: bool)
    requires StandsAt(buf, p, s) && n <= |s| && Readable(s, 0, n, question, relaxed)
    ensures Readable(buf, p, p + n, question, relaxed)
    decreases n
  {
    hide TextByte, HexChar;
    if n > 0 {
      if TextByte(Signed(s[n - 1]), question, relaxed) && Readable(s, 0, n - 1, question, relaxed) {
        ReadableStands(buf, p, s, n - 1, question, relaxed);
      } else {
        ReadableStands(buf, p, s, n - 3, question, relaxed);
      }
    }
  }

  lemma {:induction false} FirstStands(buf: string, p: nat, s: string, c: char, i: nat, j: nat)
    requires StandsAt(buf, p, s) && i <= j <= |s|
    ensures FirstAt(buf, c, p + i, p + j) == p + FirstAt(s, c, i, j)
    decreases j - i
  {
    if i < j {
      assert s[i] == buf[p + i];
      FirstStands(buf, p, s, c, i + 1, j);
    }
  }

  lemma DigitsStand(buf: string, p: nat, s: string, i: nat, j: nat)
    requires StandsAt(buf, p, s) && i <= j <= |s|
    ensures Digits(buf, p + i, p + j) <==> Digits(s, i, j)
  {
    if Digits(buf, p + i, p + j) {
      assert forall k :: i <= k < j ==> s[k] == buf[p + k];
    }
    if Digits(s, i, j) {
      forall k | p + i <= k < p + j ensures '0' <= buf[k] <= '9' {
        assert s[k - p] == buf[p + (k - p)];
      }
    }
  }

  lemma AuthorityStands(buf: string, p: nat, s: string, i: nat, j: nat)
    requires StandsAt(buf, p, s) && i <= j <= |s| && AuthorityForm(s, i, j)
    ensures AuthorityForm(buf, p + i, p + j)
  {
    var at := FirstAt(s, '@', i, j);
    var host := if at < j then at + 1 else i;
    FirstStands(buf, p, s, '@', i, j);
    FirstStands(buf, p, s, '@', host, j);
    FirstStands(buf, p, s, ':', host, j);
    var colon := FirstAt(s, ':', host, j);
    if colon < j {
      DigitsStand(buf, p, s, colon + 1, j);
    }
    hide FirstAt, StandsAt, Digits;
  }

  lemma HostFormStands(buf: string, p: nat, s: string)
    requires StandsAt(buf, p, s) && 2 <= |s| && p + |s| <= |buf| && AuthorityForm(s, 2, FirstAt(s, '/', 2, |s|))
    ensures AuthorityForm(buf, p + 2, FirstAt(buf, '/', p + 2, p + |s|))
  {
    hide *;
    FirstStands(buf, p, s, '/', 2, |s|);
    AuthorityStands(buf, p, s, 2, FirstAt(s, '/', 2, |s|));
  }

  lemma ColonStands(buf: string, p: nat, s: string)
    requires StandsAt(buf, p, s) && p + |s| <= |buf|
    ensures ColonFirst(buf, p, p + |s|) <==> ColonFirst(s, 0, |s|)
  {
    FirstStands(buf, p, s, ':', 0, |s|);
    FirstStands(buf, p, s, '/', 0, |s|);
    hide FirstAt, StandsAt;
  }

  lemma PathFormStands(buf: string, p: nat, s: string, schemed: bool)
    requires StandsAt(buf, p, s) && PathForm(s, 0, |s|, schemed)
    ensures p + |s| <= |buf| && PathForm(buf, p, p + |s|, schemed)
  {
    assert p + |s| <= |buf| && (Hosted(s, 0, |s|) ==> 2 <= |s|);
    HostedStands(buf, p, s);
    ColonStands(buf, p, s);
    hide FirstAt, AuthorityForm, Hosted, ColonFirst, StandsAt;
    if Hosted(s, 0, |s|) {
      HostFormStands(buf, p, s);
    }
  }

  lemma HostedStands(buf: string, p: nat, s: string)
    requires StandsAt(buf, p, s)
    ensures Hosted(buf, p, p + |s|) <==> Hosted(s, 0, |s|)
  {
    if |s| > 1 {
      assert s[0] == buf[p + 0] && s[1] == buf[p + 1];
    }
  }

  lemma SchemeStands(buf: string, p: nat, s: string)
    requires StandsAt(buf, p, s + ":") && SchemeText(s, 0, |s|)
    ensures p + |s| < |buf| && buf[p + |s|] == ':' && SchemeText(buf, p, p + |s|)
  {
    SplitStanding(buf, p, s, ":");
    assert ":"[0] == buf[p + |s| + 0];
    forall i | p <= i < p + |s| ensures buf[i] == s[i - p] {
      assert s[i - p] == buf[p + (i - p)];
    }
  }

  lemma {:induction false} ReadableWithout(buf: string, from: nat, end: nat, question: bool, relaxed: bool)
    requires Readable(buf, from, end, question, relaxed) && Bytes(buf)
    ensures Without(buf, from, end, if question then TEXT_ENDS else PATH_ENDS)
    decreases end
  {
    if from != end {
      if TextByte(Signed(buf[end - 1]), question, relaxed) && Readable(buf, from, end - 1, question, relaxed) {
        ReadableWithout(buf, from, end - 1, question, relaxed);
      } else {
        ReadableWithout(buf, from, end - 3, question, relaxed);
      }
    }
  }

  /** The pieces of a printed request, one behind the other. */
  function Pieces(l: Line, rest: string): string {
    var m, front, path, version := l.verb, Front(l.scheme), l.path, l.version;
    var q, f := Marked('?', l.query), Marked('#', l.fragment);
    m + (" " + (front + (path + (q + (f + (" " + (version + (CRLF + rest))))))))
  }

  function HeadOf(l: Line): Head {
    Head(|l.verb|, |l.verb| + 1 + |Front(l.scheme)|, |l.path|, Size(l.query), Size(l.fragment))
  }

  /** Where each piece stands. */
  ghost predicate InPlace(buf: string, l: Line, rest: string) {
    var h := HeadOf(l);
    && StandsAt(buf, 0, l.verb) && StandsAt(buf, |l.verb|, " ")
    && StandsAt(buf, |l.verb| + 1, Front(l.scheme)) && StandsAt(buf, h.uriStart, l.path)
    && StandsAt(buf, PathEnd(h), Marked('?', l.query)) && StandsAt(buf, UriEnd(h), Marked('#', l.fragment))
    && StandsAt(buf, TargetEnd(h), " ") && StandsAt(buf, TargetEnd(h) + 1, l.version)
    && StandsAt(buf, TargetEnd(h) + 1 + |l.version|, CRLF) && StandsAt(buf, TargetEnd(h) + 1 + |l.version| + 2, rest)
  }

  lemma Places(l: Line)
    ensures var h := HeadOf(l);
      && h.methodLen == |l.verb| && h.uriStart == |l.verb| + 1 + |Front(l.scheme)|
      && PathEnd(h) == h.uriStart + |l.path| && UriEnd(h) == PathEnd(h) + |Marked('?', l.query)|
      && TargetEnd(h) == UriEnd(h) + |Marked('#', l.fragment)| == |l.verb| + 1 + |Target(l)|
  {
  }

  lemma WholeStands(buf: string)
    ensures StandsAt(buf, 0, buf)
  {
  }

  lemma EightStand(buf: string, m: string, front: string, path: string, q: string, f: string, version: string,
                   rest: string)
    requires buf == m + (" " + (front + (path + (q + (f + (" " + (version + (CRLF + rest))))))))
    ensures StandsAt(buf, 0, m) && StandsAt(buf, |m|, " ") && StandsAt(buf, |m| + 1, front)
    ensures var at := |m| + 1 + |front|;
      && StandsAt(buf, at, path) && StandsAt(buf, at + |path|, q) && StandsAt(buf, at + |path| + |q|, f)
      && StandsAt(buf, at + |path| + |q| + |f|, " ") && StandsAt(buf, at + |path| + |q| + |f| + 1, version)
      && StandsAt(buf, at + |path| + |q| + |f| + 1 + |version|, CRLF)
      && StandsAt(buf, at + |path| + |q| + |f| + 1 + |version| + 2, rest)
  {
    WholeStands(buf);
    assert |CRLF| == 2;
    hide *;
    var at := |m| + 1 + |front|;
    SplitStanding(buf, 0, m, " " + (front + (path + (q + (f + (" " + (version + (CRLF + rest))))))));
    SplitStanding(buf, |m|, " ", front + (path + (q + (f + (" " + (version + (CRLF + rest)))))));
    SplitStanding(buf, |m| + 1, front, path + (q + (f + (" " + (version + (CRLF + rest))))));
    SplitStanding(buf, at, path, q + (f + (" " + (version + (CRLF + rest)))));
    SplitStanding(buf, at + |path|, q, f + (" " + (version + (CRLF + rest))));
    SplitStanding(buf, at + |path| + |q|, f, " " + (version + (CRLF + rest)));
    SplitStanding(buf, at + |path| + |q| + |f|, " ", version + (CRLF + rest));
    SplitStanding(buf, at + |path| + |q| + |f| + 1, version, CRLF + rest);
    SplitStanding(buf, at + |path| + |q| + |f| + 1 + |version|, CRLF, rest);
  }

  lemma InPlaceIs(buf: string, l: Line, rest: string, m: string, front: string, path: string, q: string, f: string,
                  version: string)
    requires m == l.verb && front == Front(l.scheme) && path == l.path && version == l.version
    requires q == Marked('?', l.query) && f == Marked('#', l.fragment)
    requires StandsAt(buf, 0, m) && StandsAt(buf, |m|, " ") && StandsAt(buf, |m| + 1, front)
    requires var at := |m| + 1 + |front|;
      && StandsAt(buf, at, path) && StandsAt(buf, at + |path|, q) && StandsAt(buf, at + |path| + |q|, f)
      && StandsAt(buf, at + |path| + |q| + |f|, " ") && StandsAt(buf, at + |path| + |q| + |f| + 1, version)
      && StandsAt(buf, at + |path| + |q| + |f| + 1 + |version|, CRLF)
      && StandsAt(buf, at + |path| + |q| + |f| + 1 + |version| + 2, rest)
    ensures InPlace(buf, l, rest)
  {
    Places(l);
    hide StandsAt, Front, Marked, HeadOf;
  }

  lemma PiecesStand(buf: string, l: Line, rest: string)
    requires buf == Pieces(l, rest)
    ensures InPlace(buf, l, rest)
  {
    var m, front, path, version := l.verb, Front(l.scheme), l.path, l.version;
    var q, f := Marked('?', l.query), Marked('#', l.fragment);
    assert buf == m + (" " + (front + (path + (q + (f + (" " + (version + (CRLF + rest))))))));
    hide *;
    EightStand(buf, m, front, path, q, f, version, rest);
    InPlaceIs(buf, l, rest, m, front, path, q, f, version);
  }

  lemma MarkedStands(buf: string, p: nat, mark: char, text: Option<string>, relaxed: bool)
    requires StandsAt(buf, p, Marked(mark, text)) && GoodText(text, relaxed) && Bytes(buf) && text.Some?
    ensures p < |buf| && buf[p] == mark && Readable(buf, p + 1, p + 1 + |text.value|, true, relaxed)
    ensures Without(buf, p + 1, p + 1 + |text.value|, TEXT_ENDS)
  {
    assert Marked(mark, text)[0] == buf[p + 0];
    SplitStanding(buf, p, [mark], text.value);
    hide StandsAt, Readable, Without;
    ReadableStands(buf, p + 1, text.value, |text.value|, true, relaxed);
    ReadableWithout(buf, p + 1, p + 1 + |text.value|, true, relaxed);
  }

  lemma VersionStands(buf: string, p: nat, version: string)
    requires StandsAt(buf, p, version) && version in ["HTTP/1.0", "HTTP/1.1"]
    ensures |version| == 8 && VersionAt(buf, p)
  {
    StandingSlice(buf, p, version);
    assert version[..7] == VERSION_TEXT && (version[7] == '0' || version[7] == '1');
    assert buf[p..p + 7] == buf[p..p + 8][..7];
    assert buf[p + 7] == buf[p..p + 8][7];
  }

  /** The path's start: behind the method's space, or behind the scheme and its colon. */
  lemma StartStands(buf: string, l: Line)
    requires StandsAt(buf, |l.verb| + 1, Front(l.scheme)) && GoodScheme(l.scheme)
    requires MethodText(buf, |l.verb|)
    ensures StartText(buf, HeadOf(l)) && Schemed(HeadOf(l)) == l.scheme.Some?
  {
    hide StandsAt, MethodText;
    if l.scheme.Some? {
      SchemeStands(buf, |l.verb| + 1, l.scheme.value);
      assert |Front(l.scheme)| == |l.scheme.value| + 1;
    }
  }

  lemma PathStands(buf: string, h: Head, path: string, schemed: bool, relaxed: bool)
    requires Bytes(buf) && GoodPath(path, schemed, relaxed) && h.pathLen == |path| && StandsAt(buf, h.uriStart, path)
    requires StartText(buf, h)
    ensures PathText(buf, h, relaxed) && h.uriStart <= PathEnd(h) <= |buf|
    ensures Readable(buf, h.uriStart, PathEnd(h), false, relaxed) && PathForm(buf, h.uriStart, PathEnd(h), schemed)
  {
    hide StandsAt, Readable, Without, PathForm, StartText, Bracketed;
    PathFormStands(buf, h.uriStart, path, schemed);
    ReadableStands(buf, h.uriStart, path, |path|, false, relaxed);
    ReadableWithout(buf, h.uriStart, PathEnd(h), false, relaxed);
  }

  lemma TextsStand(buf: string, h: Head, l: Line, relaxed: bool)
    requires Bytes(buf) && GoodText(l.query, relaxed) && GoodText(l.fragment, relaxed) && PathText(buf, h, relaxed)
    requires h.query == Size(l.query) && h.fragment == Size(l.fragment)
    requires StandsAt(buf, PathEnd(h), Marked('?', l.query)) && StandsAt(buf, UriEnd(h), Marked('#', l.fragment))
    ensures TargetText(buf, h, relaxed)
  {
    hide StandsAt, Readable, Without, Marked, PathText, GoodText;
    hide PathEnd;
    if l.query.Some? {
      MarkedStands(buf, PathEnd(h), '?', l.query, relaxed);
    }
    if l.fragment.Some? {
      MarkedStands(buf, UriEnd(h), '#', l.fragment, relaxed);
    }
  }

  lemma HeadIs(buf: string, h: Head, relaxed: bool)
    requires TargetText(buf, h, relaxed) && VersionAt(buf, TargetEnd(h) + 1) && TargetEnd(h) < |buf|
    requires buf[TargetEnd(h)] == ' '
    ensures HeadText(buf, h, relaxed) && VersionEnd(h) == TargetEnd(h) + 9
  {
    hide TargetText, TargetEnd;
  }

  lemma GoodLineParts(l: Line, relaxed: bool)
    requires GoodLine(l, relaxed)
    ensures GoodMethod(l.verb) && GoodScheme(l.scheme) && GoodPath(l.path, l.scheme.Some?, relaxed)
    ensures GoodText(l.query, relaxed) && GoodText(l.fragment, relaxed) && l.version in ["HTTP/1.0", "HTTP/1.1"]
    ensures |l.version| == 8
    ensures HeadOf(l).pathLen == |l.path| && HeadOf(l).query == Size(l.query) && HeadOf(l).fragment == Size(l.fragment)
  {
    hide GoodMethod, GoodScheme, GoodPath, GoodText;
  }

  lemma InPlaceParts(buf: string, l: Line, rest: string)
    requires InPlace(buf, l, rest)
    ensures var h := HeadOf(l);
      && StandsAt(buf, 0, l.verb) && StandsAt(buf, |l.verb|, " ")
      && StandsAt(buf, |l.verb| + 1, Front(l.scheme)) && StandsAt(buf, h.uriStart, l.path)
      && StandsAt(buf, PathEnd(h), Marked('?', l.query)) && StandsAt(buf, UriEnd(h), Marked('#', l.fragment))
      && StandsAt(buf, TargetEnd(h), " ") && StandsAt(buf, TargetEnd(h) + 1, l.version)
      && StandsAt(buf, TargetEnd(h) + 1 + |l.version|, CRLF) && StandsAt(buf, TargetEnd(h) + 1 + |l.version| + 2, rest)
  {
    hide StandsAt;
  }

  lemma PiecesAreLine(buf: string, l: Line, rest: string, relaxed: bool)
    requires Bytes(buf) && buf == Pieces(l, rest) && GoodLine(l, relaxed)
    ensures var h := HeadOf(l);
      LineText(buf, h, relaxed) && LineBreak(buf, VersionEnd(h), VersionEnd(h) + 2)
      && StandsAt(buf, VersionEnd(h) + 2, rest)
  {
    hide *;
    var h := HeadOf(l);
    PiecesStand(buf, l, rest);
    InPlaceParts(buf, l, rest);
    GoodLineParts(l, relaxed);
    VersionStands(buf, TargetEnd(h) + 1, l.version);
    SpacesStand(buf, |l.verb|, TargetEnd(h));
    MethodStands(buf, l.verb);
    StartStands(buf, l);
    PathStands(buf, h, l.path, l.scheme.Some?, relaxed);
    TextsStand(buf, h, l, relaxed);
    HeadIs(buf, h, relaxed);
    BreakStands(buf, VersionEnd(h));
    LineTextIs(buf, h, relaxed);
  }

  lemma SpacesStand(buf: string, p: nat, q: nat)
    requires StandsAt(buf, p, " ") && StandsAt(buf, q, " ")
    ensures p < |buf| && q < |buf| && buf[p] == ' ' && buf[q] == ' '
  {
    assert " "[0] == buf[p + 0] && " "[0] == buf[q + 0];
  }

  lemma MethodStands(buf: string, m: string)
    requires GoodMethod(m) && StandsAt(buf, 0, m) && |m| < |buf| && buf[|m|] == ' '
    ensures MethodText(buf, |m|)
  {
    forall i | 0 <= i < |m| ensures MethodByte(Signed(buf[i])) {
      assert m[i] == buf[0 + i];
    }
  }

  lemma PrintIsPieces(l: Line, hs: Headers, body: string)
    ensures PrintHead(l.verb, Target(l), l.version, hs) + body == Pieces(l, PrintHeaders(hs) + CRLF + body)
  {
    var m, front, path, version := l.verb, Front(l.scheme), l.path, l.version;
    var q, f, block := Marked('?', l.query), Marked('#', l.fragment), PrintHeaders(hs);
    hide Marked, Front, PrintHeaders, CRLF;
    var rest := " " + (version + (CRLF + (block + CRLF + body)));
    var target := front + path + q + f;
    assert target + rest == front + (path + (q + (f + rest))) by {
      Chain(front + path + q, f, rest);
      Chain(front + path, q, f + rest);
      Chain(front, path, q + (f + rest));
    }
    assert m + " " + target + " " + version + CRLF + block + CRLF + body == m + (" " + (target + rest)) by {
      LineChain(m, target, version, block, body);
    }
  }

  lemma Chain(a: string, b: string, c: string)
    ensures a + b + c == a + (b + c)
  {
  }

  lemma LineChain(m: string, target: string, version: string, block: string, body: string)
    ensures m + " " + target + " " + version + CRLF + block + CRLF + body
         == m + (" " + (target + (" " + (version + (CRLF + (block + CRLF + body))))))
  {
    hide CRLF;
    var end := block + CRLF + body;
    Chain(m + " " + target + " " + version + CRLF + block, CRLF, body);
    Chain(m + " " + target + " " + version + CRLF, block, CRLF + body);
    Chain(block, CRLF, body);
    Chain(m + " " + target + " " + version, CRLF, end);
    Chain(m + " " + target + " ", version, CRLF + end);
    Chain(m + " " + target, " ", version + (CRLF + end));
    Chain(m + " ", target, " " + (version + (CRLF + end)));
    Chain(m, " ", target + (" " + (version + (CRLF + end))));
  }

  /**
   Printed requests through the incremental parser: for every method, every target whose path has the form of the
   grammar, either version, any good headers and any body behind them, the run of a fresh parser finishes at the end of
   the head and reports exactly these parts.
   */
  lemma PrintedRequestFinishes(t: Tables, relaxed: bool, garbage: nat, l: Line, hs: Headers, body: string)
    returns (parts: seq<Part>)
    requires IsRequestTable(t) && GoodLine(l, relaxed) && GoodHeaders(hs)
    requires Bytes(PrintHead(l.verb, Target(l), l.version, hs) + body)
    ensures var buf := PrintHead(l.verb, Target(l), l.version, hs) + body;
      var r := FreshRun(t, relaxed, garbage, buf);
      && r.cs == FIRST_FINAL && r.done && r.p == |buf| - |body| && r.regs.bodyStart == r.p
      && r.regs.calls == HeadCalls(HeadOf(l)) + PartCalls(parts) + [HeaderDone(r.p)]
      && LineText(buf, HeadOf(l), relaxed) && InBuffer(buf, parts) && Reported(buf, parts) == Unblanked(hs)
  {
    hide *;
    var buf := PrintHead(l.verb, Target(l), l.version, hs) + body;
    var h, block := HeadOf(l), PrintHeaders(hs) + CRLF;
    PrintIsPieces(l, hs, body);
    GoodLineParts(l, relaxed);
    BlockLength(hs);
    PiecesLength(l, block + body);
    PiecesAreLine(buf, l, block + body, relaxed);
    BreakBytes(buf, VersionEnd(h), VersionEnd(h) + 2);
    SplitStanding(buf, VersionEnd(h) + 2, block, body);
    parts := PrintedBlockFinishes(t, relaxed, garbage, buf, h, VersionEnd(h) + 2, hs);
    HeldPartsReport(buf, parts, hs);
  }

  lemma BlockLength(hs: Headers)
    ensures |PrintHeaders(hs) + CRLF| == |PrintHeaders(hs)| + 2
  {
  }

  lemma PiecesLength(l: Line, rest: string)
    requires |l.version| == 8
    ensures |Pieces(l, rest)| == VersionEnd(HeadOf(l)) + 2 + |rest|
  {
  }

  // ---- Through the text parser ----

  lemma {:induction false} FourStand(buf: string, p: nat, a: string, b: string, c: string, d: string)
    requires StandsAt(buf, p, a) && StandsAt(buf, p + |a|, b) && StandsAt(buf, p + |a| + |b|, c)
    requires StandsAt(buf, p + |a| + |b| + |c|, d)
    ensures StandsAt(buf, p, a + b + c + d)
  {
    hide *;
    JoinStanding(buf, p, a, b);
    JoinStanding(buf, p, a + b, c);
    JoinStanding(buf, p, a + b + c, d);
  }

  lemma JoinStanding(buf: string, p: nat, a: string, b: string)
    requires StandsAt(buf, p, a) && StandsAt(buf, p + |a|, b)
    ensures StandsAt(buf, p, a + b)
  {
    forall i | 0 <= i < |a + b| ensures (a + b)[i] == buf[p + i] {
      if i >= |a| {
        assert b[i - |a|] == buf[p + |a| + (i - |a|)];
      }
    }
  }

  lemma TargetStands(buf: string, l: Line, rest: string)
    requires InPlace(buf, l, rest)
    ensures StandsAt(buf, |l.verb| + 1, Target(l)) && StandsAt(buf, |l.verb| + 1 + |Target(l)| + 1, l.version)
  {
    Places(l);
    hide StandsAt, Front, Marked, HeadOf;
    FourStand(buf, |l.verb| + 1, Front(l.scheme), l.path, Marked('?', l.query), Marked('#', l.fragment));
  }

  lemma LineReads(buf: string, l: Line, rest: string, relaxed: bool)
    requires Bytes(buf) && buf == Pieces(l, rest) && GoodLine(l, relaxed)
    ensures Word(l.verb) && Word(Target(l)) && Word(l.version)
  {
    hide *;
    var h := HeadOf(l);
    PiecesAreLine(buf, l, rest, relaxed);
    LineTextParts(buf, h, relaxed);
    PiecesStand(buf, l, rest);
    InPlaceParts(buf, l, rest);
    TargetStands(buf, l, rest);
    Places(l);
    GoodLineParts(l, relaxed);
    LineHasRoom(buf, h, relaxed);
    LineWords(buf, h, l.verb, Target(l), l.version);
    MethodIsWord(buf, h, relaxed);
    TargetIsWord(buf, h, relaxed);
    VersionIsWord(buf, h, relaxed);
  }

  lemma LineWords(buf: string, h: Head, m: string, target: string, version: string)
    requires LineFits(buf, h) && StandsAt(buf, 0, m) && StandsAt(buf, |m| + 1, target)
    requires StandsAt(buf, |m| + 1 + |target| + 1, version) && |version| == 8
    requires h.methodLen == |m| && TargetEnd(h) == h.methodLen + 1 + |target|
    ensures MethodOf(buf, h) == m && TargetOf(buf, h) == target && VersionOf(buf, h) == version
  {
    StandingSlice(buf, 0, m);
    StandingSlice(buf, |m| + 1, target);
    StandingSlice(buf, TargetEnd(h) + 1, version);
    assert buf[..|m|] == buf[0..0 + |m|];
    hide StandsAt;
  }

  lemma BytesInFront(a: string, b: string)
    requires Bytes(a + b)
    ensures Bytes(a)
  {
    assert forall i :: 0 <= i < |a| ==> a[i] == (a + b)[i];
  }

  lemma HeadersArePlain(hs: Headers)
    requires GoodHeaders(hs) && forall k :: 0 <= k < |hs| ==> BreakFree(hs[k].0)
    ensures PlainHeaders(hs) && forall k :: 0 <= k < |hs| ==> ':' !in hs[k].0
  {
    hide GoodName, GoodValue, BreakFree;
    forall k | 0 <= k < |hs| ensures PlainHeader(hs[k]) && ':' !in hs[k].0 {
      NamesHaveNoColon(hs[k].0);
      GoodValueIsPlain(hs[k].1);
    }
  }

  lemma RequestTextReads(l: Line, hs: Headers, relaxed: bool)
    requires GoodLine(l, relaxed) && GoodHeaders(hs) && forall k :: 0 <= k < |hs| ==> BreakFree(hs[k].0)
    requires Bytes(PrintHead(l.verb, Target(l), l.version, hs))
    ensures Parse(PrintHead(l.verb, Target(l), l.version, hs))
         == Complete(Request(l.verb, Target(l), l.version, Kept(hs)))
    ensures Kept(hs) == Unblanked(hs) <==> forall k :: 0 <= k < |hs| ==> SeenAlike(hs[k])
  {
    var buf := PrintHead(l.verb, Target(l), l.version, hs);
    assert buf + "" == buf;
    HeadersArePlain(hs);
    hide *;
    PrintIsPieces(l, hs, "");
    LineReads(buf, l, PrintHeaders(hs) + CRLF + "", relaxed);
    WordIsPlain(l.verb);
    WordIsPlain(Target(l));
    WordIsPlain(l.version);
    PrintedParses(l.verb, Target(l), l.version, hs);
    OneWord(l.version);
    KeptIsUnblanked(hs);
  }

  /**
   Both parsers on every such request: the incremental parser finishes, the text parser reads the same bytes up to the
   body as the same method, target and version, and their header lists are equal exactly when every header is seen
   alike.
   */
  lemma PrintedRequestsAgree(t: Tables, relaxed: bool, garbage: nat, l: Line, hs: Headers, body: string)
    returns (parts: seq<Part>)
    requires IsRequestTable(t) && GoodLine(l, relaxed) && GoodHeaders(hs)
    requires forall k :: 0 <= k < |hs| ==> BreakFree(hs[k].0)
    requires Bytes(PrintHead(l.verb, Target(l), l.version, hs) + body)
    ensures var head := PrintHead(l.verb, Target(l), l.version, hs);
      var r := FreshRun(t, relaxed, garbage, head + body);
      && r.cs == FIRST_FINAL && r.p == |head| && InBuffer(head + body, parts)
      && r.regs.calls == HeadCalls(HeadOf(l)) + PartCalls(parts) + [HeaderDone(|head|)]
      && Parse(head) == Complete(Request(l.verb, Target(l), l.version, Kept(hs)))
      && (Kept(hs) == Reported(head + body, parts) <==> forall k :: 0 <= k < |hs| ==> SeenAlike(hs[k]))
  {
    hide *;
    parts := PrintedRequestFinishes(t, relaxed, garbage, l, hs, body);
    BytesInFront(PrintHead(l.verb, Target(l), l.version, hs), body);
    RequestTextReads(l, hs, relaxed);
  }
}
