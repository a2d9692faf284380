/**
 The accumulating text parser `http_parser::parse_packet`.

 Packets are appended to a buffer until the text in front of its first NUL ends with an empty line; then the
 text is cut into lines and the buffer is emptied. The parser is an object; `Parse` is what it computes, and
 the theorems are about printing a message, about cutting it into packets, and about bytes that break it.
 */
module TextParser {
  import opened Splitting

  const END: string := "\r\n\r\n"

  type Headers = seq<(string, string)>

  datatype Request = Request(verb: string, url: string, version: string, headers: Headers)

  /** `Undefined`: the first line has too few words and the original indexes past the end of its list. */
  datatype Parsed = NeedMore | Complete(request: Request) | Undefined

  /** The text in front of the first NUL, as a `std::string_view` made from a `char*` sees it. */
  function CText(s: string): (r: string)
    ensures r <= s && '\0' !in r
    ensures |r| < |s| ==> s[|r|] == '\0'
    ensures '\0' !in s ==> r == s
  {
    if s == [] || s[0] == '\0' then [] else [s[0]] + CText(s[1..])
  }

  predicate EndsWith(s: string, e: string) {
    |e| <= |s| && s[|s| - |e|..] == e
  }

  lemma EndsWithBehind(a: string, b: string, e: string)
    requires EndsWith(b, e)
    ensures EndsWith(a + b, e)
  {
    assert (a + b)[|a + b| - |e|..] == b[|b| - |e|..];
  }

  /** A header line counts when it has exactly one colon. */
  function HeaderOf(line: string): Headers {
    var pieces := Split(line, ":");
    if |pieces| == 2 then [(pieces[0], TrimWhitespace(pieces[1]))] else []
  }

  function HeadersOf(lines: seq<string>): Headers {
    if lines == [] then [] else HeaderOf(lines[0]) + HeadersOf(lines[1..])
  }

  lemma HeadersFrom(lines: seq<string>, k: nat)
    requires k <= |lines|
    ensures HeadersOf(lines[k..]) ==
            if k == |lines| then [] else HeaderOf(lines[k]) + HeadersOf(lines[k + 1..])
  {
    if k < |lines| {
      assert lines[k..][1..] == lines[k + 1..];
    }
  }

  function Parse(raw: string): Parsed {
    var text := CText(raw);
    if !EndsWith(text, END) then NeedMore
    else
      var lines := Split(text, CRLF);
      var words := Split(lines[0], " ");
      if |words| < 3 then Undefined
      else Complete(Request(words[0], words[1], words[2], HeadersOf(lines[1..])))
  }

  // ---- The parser as an object ----

  class HttpTextParser {
    var rawHttpRequest: string

    constructor ()
      ensures rawHttpRequest == ""
    {
      rawHttpRequest := "";
    }

    /** On `Undefined` nothing is promised of the original; here the buffer stays. */
    method ParsePacket(packet: string) returns (r: Parsed)
      modifies this
      ensures r == Parse(old(rawHttpRequest) + packet)
      ensures rawHttpRequest == if r.Complete? then "" else old(rawHttpRequest) + packet
    {
      hide Split, HeadersOf, CText;
      rawHttpRequest := rawHttpRequest + packet;
      var text := CText(rawHttpRequest);
      if !EndsWith(text, END) {
        return NeedMore;
      }
      var lines := SplitAt(text, CRLF);
      var words := SplitAtChar(lines[0], ' ');
      if |words| < 3 {
        return Undefined;
      }
      var headers := CollectHeaders(lines);
      rawHttpRequest := "";
      return Complete(Request(words[0], words[1], words[2], headers));
    }

    /** The loop over the lines behind the first. */
    method CollectHeaders(lines: seq<string>) returns (headers: Headers)
      requires lines != []
      ensures headers == HeadersOf(lines[1..])
    {
      headers := [];
      var lineIndex := 1;
      hide Split, TrimWhitespace, HeadersOf;
      while lineIndex < |lines|
        invariant 1 <= lineIndex <= |lines|
        invariant headers + HeadersOf(lines[lineIndex..]) == HeadersOf(lines[1..])
      {
        var header := SplitAtChar(lines[lineIndex], ':');
        HeadersFrom(lines, lineIndex);
        ghost var rest := HeadersOf(lines[lineIndex + 1..]);
        assert headers + (HeaderOf(lines[lineIndex]) + rest) == headers + HeaderOf(lines[lineIndex]) + rest;
        if |header| == 2 {
          headers := headers + [(header[0], TrimWhitespace(header[1]))];
        } else {
          assert headers + [] == headers;
        }
        lineIndex := lineIndex + 1;
      }
      HeadersFrom(lines, |lines|);
      assert headers + [] == headers;
    }
  }

  // ---- Printing ----

  function PrintHeader(h: (string, string)): string {
    h.0 + ":" + h.1
  }

  function HeaderLines(hs: Headers): (r: seq<string>)
    ensures |r| == |hs| && forall i :: 0 <= i < |hs| ==> r[i] == PrintHeader(hs[i])
  {
    seq(|hs|, i requires 0 <= i < |hs| => PrintHeader(hs[i]))
  }

  /** Header lines, each with its line break. */
  function PrintHeaders(hs: Headers): string {
    if hs == [] then "" else PrintHeader(hs[0]) + CRLF + PrintHeaders(hs[1..])
  }

  function FirstLine(a: string, b: string, c: string): string {
    a + " " + b + " " + c
  }

  /** A first line of three words, the headers and the empty line: a request, or a response's head. */
  function PrintHead(a: string, b: string, c: string, hs: Headers): string {
    FirstLine(a, b, c) + CRLF + PrintHeaders(hs) + CRLF
  }

  lemma {:induction false} PrintedLines(first: string, hs: Headers)
    ensures first + CRLF + PrintHeaders(hs) + CRLF == Join([first] + HeaderLines(hs) + ["", ""], CRLF)
    decreases |hs|
  {
    var lines := [first] + HeaderLines(hs) + ["", ""];
    if hs == [] {
      assert lines[1..] == ["", ""] && ["", ""][1..] == [""];
      assert Join(["", ""], CRLF) == "" + CRLF + "";
    } else {
      PrintedLines(PrintHeader(hs[0]), hs[1..]);
      assert lines[1..] == [PrintHeader(hs[0])] + HeaderLines(hs[1..]) + ["", ""];
      assert PrintHeaders(hs) == PrintHeader(hs[0]) + CRLF + PrintHeaders(hs[1..]);
      assert first + CRLF + PrintHeaders(hs) + CRLF
          == first + CRLF + (PrintHeader(hs[0]) + CRLF + PrintHeaders(hs[1..]) + CRLF);
    }
  }

  // ---- Text free of line breaks ----

  ghost predicate BreakFree(s: string) {
    !Contains(s, CRLF)
  }

  lemma NoCrNoBreak(s: string)
    requires '\r' !in s
    ensures BreakFree(s)
  {
    if i: nat :| MatchesAt(s, CRLF, i) {
      MatchShows(s, CRLF, i);
    }
  }

  /** A character that is neither CR nor LF keeps two break-free texts apart. */
  lemma BreakFreeAround(a: string, c: char, b: string)
    requires BreakFree(a) && BreakFree(b) && c != '\r' && c != '\n'
    ensures BreakFree(a + [c] + b)
  {
    var s := a + [c] + b;
    if i :| 0 <= i <= |s| && MatchesAt(s, CRLF, i) {
      BreakAcross(a, c, b, i);
    }
  }

  lemma BreakAcross(a: string, c: char, b: string, i: nat)
    requires MatchesAt(a + [c] + b, CRLF, i)
    ensures c == '\r' || c == '\n' || Contains(a, CRLF) || Contains(b, CRLF)
  {
    var s := a + [c] + b;
    assert s[i] == s[i..i + 2][0] == '\r' && s[i + 1] == s[i..i + 2][1] == '\n';
    if i + 1 < |a| {
      assert a[i..i + 2] == CRLF;
      assert MatchesAt(a, CRLF, i);
    } else if i > |a| {
      assert b[i - |a| - 1..i - |a| + 1] == CRLF;
      assert MatchesAt(b, CRLF, i - |a| - 1);
    }
  }

  ghost predicate PlainHeader(h: (string, string)) {
    BreakFree(h.0) && BreakFree(h.1) && '\0' !in h.0 && '\0' !in h.1
  }

  ghost predicate PlainHeaders(hs: Headers) {
    forall i :: 0 <= i < |hs| ==> PlainHeader(hs[i])
  }

  ghost predicate Plain(s: string) {
    BreakFree(s) && '\0' !in s
  }

  lemma PrintedIsClean(a: string, b: string, c: string, hs: Headers)
    requires BreakFree(a) && BreakFree(b) && BreakFree(c)
    requires forall i :: 0 <= i < |hs| ==> BreakFree(hs[i].0) && BreakFree(hs[i].1)
    ensures Clean([FirstLine(a, b, c)] + HeaderLines(hs) + ["", ""], CRLF)
  {
    BreakFreeAround(a, ' ', b);
    BreakFreeAround(a + " " + b, ' ', c);
    forall i | 0 <= i < |hs| ensures BreakFree(HeaderLines(hs)[i]) {
      BreakFreeAround(hs[i].0, ':', hs[i].1);
    }
  }

  lemma {:induction false} PrintedHasNoNul(hs: Headers)
    requires PlainHeaders(hs)
    ensures '\0' !in PrintHeaders(hs)
    decreases |hs|
  {
    if hs != [] {
      PrintedHasNoNul(hs[1..]);
    }
  }

  /** The lines that come back from printed text. */
  lemma PrintedSplits(a: string, b: string, c: string, hs: Headers)
    requires BreakFree(a) && BreakFree(b) && BreakFree(c)
    requires forall i :: 0 <= i < |hs| ==> BreakFree(hs[i].0) && BreakFree(hs[i].1)
    ensures Split(PrintHead(a, b, c, hs), CRLF) == [FirstLine(a, b, c)] + HeaderLines(hs) + ["", ""]
    ensures EndsWith(PrintHead(a, b, c, hs), END)
  {
    PrintedIsClean(a, b, c, hs);
    CrlfBorderFree();
    PrintedEnd(hs);
    hide BreakFree, FirstLine, HeaderLines, PrintHeaders, Split, Join, BorderFree, EndsWith, CRLF, END;
    var first := FirstLine(a, b, c);
    PrintedLines(first, hs);
    SplitJoin([first] + HeaderLines(hs) + ["", ""], CRLF);
    EndsWithBehind(first, CRLF + PrintHeaders(hs) + CRLF, END);
    Regroup(first, CRLF, PrintHeaders(hs), CRLF);
  }

  lemma {:induction false} PrintedEnd(hs: Headers)
    ensures EndsWith(CRLF + PrintHeaders(hs) + CRLF, END)
    decreases |hs|
  {
    if hs == [] {
      assert CRLF + "" + CRLF == END;
    } else {
      var line, rest := PrintHeader(hs[0]), PrintHeaders(hs[1..]);
      PrintedEnd(hs[1..]);
      assert PrintHeaders(hs) == line + CRLF + rest;
      hide EndsWith, PrintHeader, PrintHeaders, CRLF, END;
      EndsWithBehind(CRLF + line, CRLF + rest + CRLF, END);
      RegroupFive(CRLF, line, CRLF, rest, CRLF);
    }
  }

  // ---- What parsing gives back ----

  /** Splitting a clean piece off the front. */
  lemma SplitPrefix(p: string, d: string, rest: string)
    requires d != [] && BorderFree(d) && !Contains(p, d)
    ensures Split(p + d + rest, d) == [p] + Split(rest, d)
  {
    FirstBehindPiece(p, d, rest);
    var s := p + d + rest;
    SplitOnce(s, d);
    assert s[..|p|] == p && s[|p| + |d|..] == rest;
  }

  lemma SplitClean(p: string, d: string)
    requires d != [] && !Contains(p, d)
    ensures Split(p, d) == [p]
  {
  }

  /** A printed header is read back when its name and value hold no colon, and dropped otherwise. */
  lemma PrintedHeaderReads(h: (string, string))
    ensures HeaderOf(PrintHeader(h)) == KeptHeader(h)
  {
    var pieces := Split(PrintHeader(h), ":");
    CharBorderFree(':');
    hide Split, MatchesAt, Contains;
    if ':' !in h.0 {
      SplitPrefix(h.0, ":", h.1);
      if ':' !in h.1 {
        SplitClean(h.1, ":");
      } else {
        ManyPieces(h.1, ':');
      }
    } else {
      var i :| 0 <= i < |h.0| && h.0[i] == ':';
      ManyColons(PrintHeader(h), i, |h.0|);
    }
  }

  lemma ManyPieces(s: string, c: char)
    ensures |Split(s, [c])| == 1 <==> c !in s
  {
    CharBorderFree(c);
    PiecesAreClean(s, [c]);
    JoinSplit(s, [c]);
    if c !in s {
      SplitClean(s, [c]);
    }
  }

  lemma ManyColons(s: string, i: nat, j: nat)
    requires i < j < |s| && s[i] == ':' && s[j] == ':'
    ensures |Split(s, ":")| > 2
  {
    CharBorderFree(':');
    assert MatchesAt(s, ":", i);
    var at := Find(s, ":", 0).value;
    assert at <= i;
    var rest := s[at + 1..];
    assert rest[j - at - 1] == ':';
    ManyPieces(rest, ':');
    SplitOnce(s, ":");
  }

  /** A header survives when it has no colon inside; its value is trimmed. */
  function KeptHeader(h: (string, string)): Headers {
    if ':' in h.0 || ':' in h.1 then [] else [(h.0, TrimWhitespace(h.1))]
  }

  function Kept(hs: Headers): Headers {
    if hs == [] then [] else KeptHeader(hs[0]) + Kept(hs[1..])
  }

  lemma {:induction false} PrintedHeadersRead(hs: Headers)
    ensures HeadersOf(HeaderLines(hs) + ["", ""]) == Kept(hs)
    decreases |hs|
  {
    var lines := HeaderLines(hs) + ["", ""];
    if hs == [] {
      ManyPieces("", ':');
      assert HeaderOf("") == [];
      assert lines == ["", ""] && lines[1..] == [""] && [""][1..] == [];
    } else {
      PrintedHeaderReads(hs[0]);
      PrintedHeadersRead(hs[1..]);
      hide HeaderOf, KeptHeader, PrintHeader;
      assert lines[0] == PrintHeader(hs[0]) && lines[1..] == HeaderLines(hs[1..]) + ["", ""];
    }
  }

  /**
   The round trip: printed text parses to its three words and its headers. The third word stops at its first
   space, a header with a colon inside is dropped, and values come back trimmed; nothing else is lost.
   */
  lemma PrintedParses(a: string, b: string, c: string, hs: Headers)
    requires Plain(a) && Plain(b) && Plain(c) && PlainHeaders(hs) && ' ' !in a && ' ' !in b
    ensures Parse(PrintHead(a, b, c, hs)) == Complete(Request(a, b, Split(c, " ")[0], Kept(hs)))
  {
    var text := PrintHead(a, b, c, hs);
    PrintedHasNoNul(hs);
    assert '\0' !in text;
    PrintedSplits(a, b, c, hs);
    var lines := [FirstLine(a, b, c)] + HeaderLines(hs) + ["", ""];
    assert lines[1..] == HeaderLines(hs) + ["", ""];
    PrintedHeadersRead(hs);
    FirstLineSplits(a, b, c);
    hide Split, MatchesAt, EndsWith, BreakFree, HeadersOf, CText, PrintHead, FirstLine;
    assert Parse(text) == Complete(Request(a, b, Split(c, " ")[0], Kept(hs)));
  }

  lemma FirstLineSplits(a: string, b: string, c: string)
    requires ' ' !in a && ' ' !in b
    ensures Split(FirstLine(a, b, c), " ") == [a, b] + Split(c, " ")
  {
    CharBorderFree(' ');
    hide Split, MatchesAt, Contains;
    SplitPrefix(b, " ", c);
    SplitPrefix(a, " ", b + " " + c);
    assert FirstLine(a, b, c) == a + " " + (b + " " + c);
    assert [a] + ([b] + Split(c, " ")) == [a, b] + Split(c, " ");
  }

  ghost predicate Faithful(c: string, hs: Headers) {
    ' ' !in c && forall i :: 0 <= i < |hs| ==> Stable(hs[i])
  }

  /** A header that comes back as it was. */
  predicate Stable(h: (string, string)) {
    ':' !in h.0 && ':' !in h.1 && TrimWhitespace(h.1) == h.1
  }

  lemma StableIsKept(h: (string, string))
    ensures |KeptHeader(h)| <= 1 && (Stable(h) <==> KeptHeader(h) == [h])
  {
    hide TrimWhitespace;
  }

  /** Lists that lose elements are equal only element by element. */
  lemma ConsExactly<T>(x: seq<T>, h: T, ys: seq<T>, zs: seq<T>)
    requires |x| <= 1 && |ys| <= |zs|
    ensures x + ys == [h] + zs <==> x == [h] && ys == zs
  {
    if x + ys == [h] + zs {
      assert |x| == 1 && (x + ys)[0] == h && (x + ys)[1..] == ys && ([h] + zs)[1..] == zs;
    }
  }

  lemma {:induction false} KeptExactly(hs: Headers)
    ensures |Kept(hs)| <= |hs|
    ensures Kept(hs) == hs <==> forall i :: 0 <= i < |hs| ==> Stable(hs[i])
    decreases |hs|
  {
    hide TrimWhitespace;
    if hs != [] {
      var h, rest := hs[0], hs[1..];
      KeptExactly(rest);
      StableIsKept(h);
      hide Stable, KeptHeader;
      assert hs == [h] + rest;
      ConsExactly(KeptHeader(h), h, Kept(rest), rest);
      assert forall i :: 0 <= i < |rest| ==> rest[i] == hs[i + 1];
      assert forall i :: 1 <= i < |hs| ==> hs[i] == rest[i - 1];
    }
  }

  /** Parsing inverts printing exactly when the third word has no space and the headers none of the losses. */
  lemma ParseInvertsPrint(a: string, b: string, c: string, hs: Headers)
    requires Plain(a) && Plain(b) && Plain(c) && PlainHeaders(hs) && ' ' !in a && ' ' !in b
    ensures Parse(PrintHead(a, b, c, hs)) == Complete(Request(a, b, c, hs)) <==> Faithful(c, hs)
  {
    PrintedParses(a, b, c, hs);
    KeptExactly(hs);
    CharBorderFree(' ');
    PiecesAreClean(c, " ");
    if ' ' !in c {
      SplitClean(c, " ");
    }
  }

  // ---- When the first line has too few words ----

  function Count(s: string, c: char): nat {
    if s == [] then 0 else (if s[0] == c then 1 else 0) + Count(s[1..], c)
  }

  lemma {:induction false} CountAppend(a: string, b: string, c: char)
    ensures Count(a + b, c) == Count(a, c) + Count(b, c)
    decreases |a|
  {
    if a == [] {
      assert a + b == b;
    } else {
      CountAppend(a[1..], b, c);
      assert (a + b)[1..] == a[1..] + b;
    }
  }

  lemma {:induction false} CountNone(s: string, c: char)
    requires c !in s
    ensures Count(s, c) == 0
    decreases |s|
  {
    if s != [] {
      CountNone(s[1..], c);
    }
  }

  lemma {:induction false} PieceCount(s: string, c: char)
    ensures |Split(s, [c])| == Count(s, c) + 1
    decreases |s|
  {
    CharBorderFree(c);
    SplitOnce(s, [c]);
    var at := Find(s, [c], 0);
    if at.None? {
      assert c !in s;
      CountNone(s, c);
    } else {
      var p, rest := s[..at.value], s[at.value + 1..];
      forall i | 0 <= i < |p| ensures p[i] != c {
        assert s[i..i + 1] == [p[i]];
        assert MatchesAt(s, [c], i) <==> p[i] == c;
      }
      CountNone(p, c);
      PieceCount(rest, c);
      assert s == p + ([c] + rest);
      CountAppend(p, [c] + rest, c);
      assert ([c] + rest)[1..] == rest;
    }
  }

  /** The original indexes past its word list exactly when a finished text has fewer than two spaces up front. */
  lemma UndefinedExactly(raw: string)
    ensures Parse(raw).Undefined? <==>
            EndsWith(CText(raw), END) && Count(Split(CText(raw), CRLF)[0], ' ') < 2
  {
    PieceCount(Split(CText(raw), CRLF)[0], ' ');
  }

  // ---- What a finished text is read as ----

  lemma {:induction false} CountSome(s: string, c: char)
    requires c in s
    ensures Count(s, c) > 0
    decreases |s|
  {
    if s[0] != c {
      assert c in s[1..];
      CountSome(s[1..], c);
    }
  }

  /** The one colon of a line: none is in front of it, and none behind. */
  lemma OneColon(line: string, at: nat)
    requires at < |line| && line[at] == ':' && Count(line, ':') == 1
    ensures ':' !in line[..at] && ':' !in line[at + 1..] && line == line[..at] + ":" + line[at + 1..]
  {
    var name, value := line[..at], line[at + 1..];
    assert line == name + ":" + value;
    CountAppend(name + ":", value, ':');
    CountAppend(name, ":", ':');
    CountSome(":", ':');
    if ':' in name {
      CountSome(name, ':');
    }
    if ':' in value {
      CountSome(value, ':');
    }
  }

  /** A line is a header exactly when it has one colon: its name is in front of it, its value trimmed behind. */
  lemma HeaderExactly(line: string)
    ensures Count(line, ':') != 1 ==> HeaderOf(line) == []
    ensures Count(line, ':') == 1 ==> |HeaderOf(line)| == 1
    ensures forall at :: 0 <= at < |line| && line[at] == ':' && Count(line, ':') == 1 ==>
              HeaderOf(line) == [(line[..at], TrimWhitespace(line[at + 1..]))]
  {
    PieceCount(line, ':');
    hide Split, TrimWhitespace;
    forall at | 0 <= at < |line| && line[at] == ':' && Count(line, ':') == 1
      ensures HeaderOf(line) == [(line[..at], TrimWhitespace(line[at + 1..]))]
    {
      OneColon(line, at);
      PrintedHeaderReads((line[..at], line[at + 1..]));
    }
  }

  /** A header of the list is the line's name and its trimmed value. */
  ghost predicate ReadFrom(line: string, h: (string, string)) {
    forall colon :: 0 <= colon < |line| && line[colon] == ':' ==>
      h == (line[..colon], TrimWhitespace(line[colon + 1..]))
  }

  /** Where the lines with one colon are, from the `k`-th on: as many as there are headers, and in their order. */
  ghost predicate HeadersStand(lines: seq<string>, k: nat, hs: Headers, at: seq<nat>) {
    && |at| == |hs| && (forall i, j :: 0 <= i < j < |at| ==> at[i] < at[j])
    && (forall i :: 0 <= i < |at| ==> k <= at[i] < |lines| && ReadFrom(lines[at[i]], hs[i]))
    && (forall n :: k <= n < |lines| ==> (Count(lines[n], ':') == 1 <==> n in at))
  }

  lemma HeaderStands(lines: seq<string>, k: nat, h: (string, string), hs: Headers, rest: seq<nat>)
    requires k < |lines| && HeadersStand(lines, k + 1, hs, rest)
    requires Count(lines[k], ':') == 1 && ReadFrom(lines[k], h)
    ensures HeadersStand(lines, k, [h] + hs, [k] + rest)
  {
    hide ReadFrom, Count;
    forall n | k <= n < |lines| ensures Count(lines[n], ':') == 1 <==> n in [k] + rest {
      assert n in [k] + rest <==> n == k || n in rest;
    }
  }

  lemma NoHeaderStands(lines: seq<string>, k: nat, hs: Headers, rest: seq<nat>)
    requires k < |lines| && HeadersStand(lines, k + 1, hs, rest) && Count(lines[k], ':') != 1
    ensures HeadersStand(lines, k, hs, rest)
  {
    hide ReadFrom, Count;
  }

  lemma HeaderReadFrom(line: string)
    requires Count(line, ':') == 1
    ensures |HeaderOf(line)| == 1 && ReadFrom(line, HeaderOf(line)[0])
  {
    HeaderExactly(line);
    hide HeaderOf, TrimWhitespace, Count;
  }

  lemma {:induction false} HeadersFound(lines: seq<string>, k: nat) returns (at: seq<nat>)
    requires k <= |lines|
    ensures HeadersStand(lines, k, HeadersOf(lines[k..]), at)
    decreases |lines| - k
  {
    HeadersFrom(lines, k);
    if k == |lines| {
      at := [];
    } else {
      var rest := HeadersFound(lines, k + 1);
      var own, hs := HeaderOf(lines[k]), HeadersOf(lines[k + 1..]);
      HeaderExactly(lines[k]);
      hide *;
      if Count(lines[k], ':') == 1 {
        HeaderReadFrom(lines[k]);
        HeaderStands(lines, k, own[0], hs, rest);
        assert own == [own[0]];
        at := [k] + rest;
      } else {
        NoHeaderStands(lines, k, hs, rest);
        assert own + hs == hs;
        at := rest;
      }
    }
  }

  /**
   What a finished text is read as. Its lines are the pieces between line breaks. The first line holds three words and
   perhaps more behind a space; the headers are, in order, one for each line behind the first that has exactly one
   colon, cut there, with the value trimmed. Any other line gives nothing.
   */
  lemma FinishedIsRead(raw: string) returns (lines: seq<string>, rest: string, at: seq<nat>)
    requires Parse(raw).Complete?
    ensures lines != [] && CText(raw) == Join(lines, "\r\n") && Clean(lines, "\r\n")
    ensures var r := Parse(raw).request;
      && lines[0] == r.verb + " " + r.url + " " + r.version + rest && (rest == "" || rest[0] == ' ')
      && ' ' !in r.verb && ' ' !in r.url && ' ' !in r.version
    ensures var hs := Parse(raw).request.headers;
      && |at| == |hs| && (forall i, j :: 0 <= i < j < |at| ==> at[i] < at[j])
      && (forall n :: 0 < n < |lines| ==> (Count(lines[n], ':') == 1 <==> n in at))
      && (forall i :: 0 <= i < |at| ==> 0 < at[i] < |lines|)
      && (forall i, colon ::
            0 <= i < |at| && 0 <= colon < |lines[at[i]]| && lines[at[i]][colon] == ':' ==>
              hs[i] == (lines[at[i]][..colon], TrimWhitespace(lines[at[i]][colon + 1..])))
  {
    var text := CText(raw);
    lines := Split(text, CRLF);
    var words := Split(lines[0], " ");
    JoinSplit(text, CRLF);
    PiecesAreClean(text, CRLF);
    rest := ThreeWords(lines[0]);
    at := HeadersFound(lines, 1);
    hide Split, Join, HeadersOf, Count, Clean, TrimWhitespace;
  }

  /** A text is finished exactly when its last four characters in front of a NUL are the empty line. */
  lemma FinishedExactly(raw: string)
    ensures var text := CText(raw);
      !Parse(raw).NeedMore? <==> |text| >= 4 && text[|text| - 4..] == "\r\n\r\n"
  {
    hide Split, HeadersOf, CText;
  }

  lemma ThreeWords(line: string) returns (rest: string)
    requires |Split(line, " ")| >= 3
    ensures var words := Split(line, " ");
      && line == words[0] + " " + words[1] + " " + words[2] + rest && (rest == "" || rest[0] == ' ')
      && ' ' !in words[0] && ' ' !in words[1] && ' ' !in words[2]
  {
    var words := Split(line, " ");
    JoinSplit(line, " ");
    PiecesAreClean(line, " ");
    CharBorderFree(' ');
    hide Split, Contains, Join;
    rest := JoinThree(words);
  }

  lemma JoinThree(words: seq<string>) returns (rest: string)
    requires |words| >= 3
    ensures rest == "" || rest[0] == ' '
    ensures Join(words, " ") == words[0] + " " + words[1] + " " + words[2] + rest
  {
    var more := words[1..][1..][1..];
    rest := if more == [] then "" else " " + Join(more, " ");
    assert Join(words[1..][1..], " ") == words[2] + rest;
    assert Join(words[1..], " ") == words[1] + " " + (words[2] + rest);
    assert Join(words, " ") == words[0] + " " + (words[1] + " " + (words[2] + rest));
  }

  /** "GET" alone is a finished text with no second word. */
  lemma OneWordUndefined()
    ensures Parse("GET" + END).Undefined?
  {
    var text := "GET" + END;
    assert text == "GET" + CRLF + CRLF;
    assert CText(text) == text;
    EndsWithBehind("GET", END, END);
    NoCrNoBreak("GET");
    CrlfBorderFree();
    SplitPrefix("GET", CRLF, CRLF);
    ManyPieces("GET", ' ');
  }

  /** A port in the host's value costs the header: the printed request comes back without it. */
  lemma HostWithPortLost()
    ensures Parse(PrintHead("GET", "/", "HTTP/1.1", [("Host", "localhost:80")]))
         == Complete(Request("GET", "/", "HTTP/1.1", []))
  {
    var hs := [("Host", "localhost:80")];
    WordsArePlain();
    PortLost(hs[0]);
    hide *;
    PrintedParses("GET", "/", "HTTP/1.1", hs);
    OneWord("HTTP/1.1");
  }

  lemma OneWord(s: string)
    requires ' ' !in s
    ensures Split(s, " ")[0] == s
  {
    CharBorderFree(' ');
    SplitClean(s, " ");
  }

  lemma PortLost(h: (string, string))
    requires h.1 == "localhost:80"
    ensures Kept([h]) == []
  {
    assert h.1[9] == ':' && [h][1..] == [];
    hide TrimWhitespace;
  }

  lemma WordsArePlain()
    ensures Plain("GET") && Plain("/") && Plain("HTTP/1.1") && ' ' !in "GET" && ' ' !in "/" && ' ' !in "HTTP/1.1"
    ensures PlainHeaders([("Host", "localhost:80")])
  {
    NoCrNoBreak("GET");
    NoCrNoBreak("/");
    NoCrNoBreak("HTTP/1.1");
    NoCrNoBreak("Host");
    NoCrNoBreak("localhost:80");
    hide BreakFree;
  }

  // ---- Packets ----

  function Concat(packets: seq<string>): string {
    if packets == [] then "" else packets[0] + Concat(packets[1..])
  }

  /** What the parser answers to packets one after the other, and the buffer it ends with. */
  function Feed(buffer: string, packets: seq<string>): (r: (seq<Parsed>, string))
    decreases |packets|
  {
    if packets == [] then ([], buffer)
    else
      var r := Parse(buffer + packets[0]);
      var (rs, end) := Feed(if r.Complete? then "" else buffer + packets[0], packets[1..]);
      ([r] + rs, end)
  }

  /** No text up to a cut before the last looks finished. */
  ghost predicate QuietCuts(buffer: string, packets: seq<string>) {
    forall k :: 0 < k < |packets| ==> !EndsWith(buffer + Concat(packets[..k]), END)
  }

  function Silence(n: nat): (r: seq<Parsed>)
    ensures |r| == n
  {
    seq(n, _ => NeedMore)
  }

  /**
   Where the packets are cut does not matter: if no earlier cut looks finished, every answer but the last asks
   for more, the last is the parse of the whole text, and the buffer is empty again.
   */
  lemma {:induction false} CutsDoNotMatter(buffer: string, packets: seq<string>)
    requires packets != [] && '\0' !in buffer + Concat(packets)
    requires QuietCuts(buffer, packets) && Parse(buffer + Concat(packets)).Complete?
    ensures Feed(buffer, packets) == (Silence(|packets| - 1) + [Parse(buffer + Concat(packets))], "")
    decreases |packets|
  {
    hide Parse, EndsWith;
    var head, tail := packets[0], packets[1..];
    assert buffer + Concat(packets) == buffer + head + Concat(tail);
    if tail == [] {
      assert buffer + head + "" == buffer + head;
      assert Feed("", tail) == ([], "");
      var answer := [Parse(buffer + Concat(packets))];
      assert answer + [] == Silence(0) + answer;
    } else {
      QuietCutsStep(buffer, packets);
      QuietParse(buffer + head);
      CutsDoNotMatter(buffer + head, tail);
      var answer := [Parse(buffer + Concat(packets))];
      assert [NeedMore] + (Silence(|tail| - 1) + answer) == Silence(|packets| - 1) + answer;
    }
  }

  lemma QuietCutsStep(buffer: string, packets: seq<string>)
    requires |packets| > 1
    ensures QuietCuts(buffer, packets) <==>
            !EndsWith(buffer + packets[0], END) && QuietCuts(buffer + packets[0], packets[1..])
  {
    hide EndsWith;
    var head, tail := packets[0], packets[1..];
    assert [head][1..] == [] && packets[..1] == [head];
    assert buffer + Concat(packets[..1]) == buffer + head;
    forall k | 0 < k < |tail| ensures buffer + Concat(packets[..k + 1]) == buffer + head + Concat(tail[..k]) {
      assert packets[..k + 1][1..] == tail[..k];
    }
    if QuietCuts(buffer + head, tail) && !EndsWith(buffer + head, END) {
      forall k | 0 < k < |packets| ensures !EndsWith(buffer + Concat(packets[..k]), END) {
        if k > 1 {
          assert packets[..k][1..] == tail[..k - 1];
        }
      }
    }
  }

  /** Every answer but the last asks for more. */
  ghost predicate Waiting(answers: seq<Parsed>) {
    forall i :: 0 <= i < |answers| - 1 ==> answers[i].NeedMore?
  }

  lemma WaitingStep(r: Parsed, rest: seq<Parsed>)
    requires rest != []
    ensures Waiting([r] + rest) <==> r.NeedMore? && Waiting(rest)
  {
    var all := [r] + rest;
    assert all[0] == r && forall i :: 0 <= i < |rest| ==> rest[i] == all[i + 1];
  }

  /** Only such a cut matters: the answers before the last all ask for more exactly when every cut is quiet. */
  lemma {:induction false} QuietCutsExactly(buffer: string, packets: seq<string>)
    requires packets != [] && '\0' !in buffer + Concat(packets)
    ensures Waiting(Feed(buffer, packets).0) <==> QuietCuts(buffer, packets)
    decreases |packets|
  {
    hide Parse, EndsWith;
    var head, tail := packets[0], packets[1..];
    assert buffer + Concat(packets) == buffer + head + Concat(tail);
    QuietParse(buffer + head);
    var r := Parse(buffer + head);
    var next := if r.Complete? then "" else buffer + head;
    FeedLength(next, tail);
    assert Feed(buffer, packets).0 == [r] + Feed(next, tail).0;
    if tail != [] {
      hide Waiting, QuietCuts, Feed;
      QuietCutsStep(buffer, packets);
      WaitingStep(r, Feed(next, tail).0);
      if r.NeedMore? {
        QuietCutsExactly(next, tail);
      }
    }
  }

  lemma {:induction false} FeedLength(buffer: string, packets: seq<string>)
    ensures |Feed(buffer, packets).0| == |packets|
    decreases |packets|
  {
    if packets != [] {
      FeedLength(if Parse(buffer + packets[0]).Complete? then "" else buffer + packets[0], packets[1..]);
    }
  }

  lemma QuietParse(text: string)
    requires '\0' !in text
    ensures Parse(text).NeedMore? <==> !EndsWith(text, END)
  {
  }

  lemma {:induction false} FeedAppend(buffer: string, ps: seq<string>, qs: seq<string>)
    ensures var (rs, mid) := Feed(buffer, ps);
      var (ss, end) := Feed(mid, qs);
      Feed(buffer, ps + qs) == (rs + ss, end)
    decreases |ps|
  {
    hide Parse;
    if ps == [] {
      assert ps + qs == qs && [] + Feed(buffer, qs).0 == Feed(buffer, qs).0;
    } else {
      var r := Parse(buffer + ps[0]);
      var next := if r.Complete? then "" else buffer + ps[0];
      assert (ps + qs)[1..] == ps[1..] + qs;
      FeedAppend(next, ps[1..], qs);
      var (rs, mid) := Feed(next, ps[1..]);
      assert [r] + (rs + Feed(mid, qs).0) == [r] + rs + Feed(mid, qs).0;
    }
  }

  ghost predicate GoodRequest(packets: seq<string>) {
    packets != [] && '\0' !in Concat(packets) && QuietCuts("", packets) && Parse(Concat(packets)).Complete?
  }

  function Flatten(requests: seq<seq<string>>): seq<string> {
    if requests == [] then [] else requests[0] + Flatten(requests[1..])
  }

  function Completion(r: Parsed): seq<Parsed> {
    if r.Complete? then [r] else []
  }

  function Completions(rs: seq<Parsed>): seq<Parsed> {
    if rs == [] then [] else Completion(rs[0]) + Completions(rs[1..])
  }

  lemma {:induction false} CompletionsAppend(a: seq<Parsed>, b: seq<Parsed>)
    ensures Completions(a + b) == Completions(a) + Completions(b)
    decreases |a|
  {
    hide Completion;
    if a == [] {
      assert a + b == b;
    } else {
      var head, tail := Completion(a[0]), Completions(a[1..]);
      CompletionsAppend(a[1..], b);
      assert (a + b)[1..] == a[1..] + b && (a + b)[0] == a[0];
      assert head + (tail + Completions(b)) == head + tail + Completions(b);
    }
  }

  lemma {:induction false} SilenceCompletes(n: nat)
    ensures Completions(Silence(n)) == []
  {
    if n > 0 {
      assert Silence(n)[1..] == Silence(n - 1);
      SilenceCompletes(n - 1);
    }
  }

  lemma AnswersComplete(n: nat, answer: Parsed, more: seq<Parsed>)
    requires answer.Complete?
    ensures Completions(Silence(n) + [answer] + more) == [answer] + Completions(more)
  {
    SilenceCompletes(n);
    CompletionsAppend(Silence(n) + [answer], more);
    CompletionsAppend(Silence(n), [answer]);
    OneCompletes(answer);
    hide *;
    assert [] + [answer] == [answer];
  }

  lemma OneCompletes(answer: Parsed)
    requires answer.Complete?
    ensures Completions([answer]) == [answer]
  {
    assert [answer][1..] == [];
    assert [answer] + [] == [answer];
  }

  /** A stream of requests, each cut anyhow, yields the list of their parses and leaves nothing behind. */
  lemma {:induction false} StreamParses(requests: seq<seq<string>>)
    requires forall i :: 0 <= i < |requests| ==> GoodRequest(requests[i])
    ensures var (rs, end) := Feed("", Flatten(requests));
      end == "" && Completions(rs) == seq(|requests|, i requires 0 <= i < |requests| => Parse(Concat(requests[i])))
    decreases |requests|
  {
    hide Parse, EndsWith, QuietCuts, Concat;
    if requests != [] {
      var first, others := requests[0], requests[1..];
      assert "" + Concat(first) == Concat(first);
      hide Feed;
      CutsDoNotMatter("", first);
      FeedAppend("", first, Flatten(others));
      StreamParses(others);
      var answer := Parse(Concat(first));
      AnswersComplete(|first| - 1, answer, Feed("", Flatten(others)).0);
      assert forall i :: 0 <= i < |others| ==> others[i] == requests[i + 1];
    }
  }

  // ---- NUL bytes ----

  lemma {:induction false} CTextStops(s: string, more: string)
    requires '\0' in s
    ensures CText(s + more) == CText(s)
    decreases |s|
  {
    if s[0] != '\0' {
      CTextStops(s[1..], more);
      assert (s + more)[1..] == s[1..] + more;
    }
  }

  /** A NUL that arrives before the text is finished jams the parser: no later packet ever completes it. */
  lemma {:induction false} NulJams(buffer: string, packets: seq<string>)
    requires '\0' in buffer && !EndsWith(CText(buffer), END)
    ensures Feed(buffer, packets).0 == Silence(|packets|)
    decreases |packets|
  {
    if packets != [] {
      CTextStops(buffer, packets[0]);
      NulJams(buffer + packets[0], packets[1..]);
    }
  }

  /** The empty line finishes any text that has no NUL. */
  lemma EndFinishes(buffer: string)
    requires '\0' !in buffer
    ensures !Parse(buffer + END).NeedMore?
  {
    EndsWithBehind(buffer, END, END);
    QuietParse(buffer + END);
  }

  /** The parser is jammed for good exactly when a NUL stands in its buffer and no empty line right before it. */
  lemma JamsExactly(buffer: string)
    ensures (forall packets :: Feed(buffer, packets).0 == Silence(|packets|)) <==>
            '\0' in buffer && !EndsWith(CText(buffer), END)
  {
    if '\0' in buffer && !EndsWith(CText(buffer), END) {
      forall packets ensures Feed(buffer, packets).0 == Silence(|packets|) {
        NulJams(buffer, packets);
      }
    } else {
      var packet := if '\0' in buffer then "" else END;
      if '\0' in buffer {
        assert buffer + packet == buffer;
      } else {
        EndFinishes(buffer);
      }
      hide Parse;
      assert Feed(buffer, [packet]).0[0] == Parse(buffer + packet);
      assert Silence(|[packet]|)[0] == NeedMore;
    }
  }

  lemma FeedFirst(packet: string, packets: seq<string>)
    requires Parse(packet).NeedMore?
    ensures Feed("", [packet] + packets).0 == [NeedMore] + Feed(packet, packets).0
  {
    hide Parse;
    assert ([packet] + packets)[1..] == packets && "" + packet == packet;
  }

  lemma SilenceFirst(n: nat)
    ensures Silence(1 + n) == [NeedMore] + Silence(n)
  {
  }

  lemma NulNeedsMore(packet: string)
    requires !EndsWith(CText(packet), END)
    ensures Parse(packet).NeedMore?
  {
  }

  lemma FirstPacketJams(packet: string, packets: seq<string>)
    requires '\0' in packet && !EndsWith(CText(packet), END)
    ensures Feed("", [packet] + packets).0 == Silence(1 + |packets|)
  {
    hide *;
    NulJams(packet, packets);
    NulNeedsMore(packet);
    FeedFirst(packet, packets);
    SilenceFirst(|packets|);
  }

  /** Behind a packet "GET" with a NUL at its end no packet is ever answered. */
  lemma NulInMethodJams(packets: seq<string>)
    ensures Feed("", ["GET\0"] + packets).0 == Silence(1 + |packets|)
  {
    hide *;
    NulEnds();
    FirstPacketJams("GET\0", packets);
  }

  lemma NulEnds()
    ensures '\0' in "GET\0" && CText("GET\0") == "GET" && !EndsWith("GET", END)
  {
    var s := "GET\0";
    assert s[3] == '\0' && s[1..] == "ET\0" && s[1..][1..] == "T\0" && s[1..][1..][1..] == "\0";
  }
}
