/**
 The grammar of requests, spelled out.

 The predicates of `RequestText`, `RequestPaths` and `RequestLines` say what a request is, class by class of signed
 bytes. Here each of them is given again on the characters themselves, on the places of delimiters, and with the
 numbers of the callbacks. In particular every byte in front of the body but those of header values is below 128.
 */
module RequestSpelling {
  import opened Prelude
  import opened TableSearch
  import opened ParserEngine
  import opened ParserResume
  import opened RequestTable
  import opened RequestText
  import opened RequestTheorems
  import opened RequestPaths
  import opened HeaderRuns
  import opened RequestLines
  import opened AcceptedRequests
  import PrintedRequests

  // ---- Classes of bytes ----

  /** Which characters a method, a scheme, and path, query and fragment text hold. */
  lemma LineCharacters(c: char, question: bool, relaxed: bool)
    requires c as int < 256
    ensures MethodByte(Signed(c)) <==> '0' <= c <= '9' || 'A' <= c <= 'Z'
    ensures Letter(Signed(c)) <==> 'A' <= c <= 'Z' || 'a' <= c <= 'z'
    ensures SchemeByte(Signed(c)) <==>
            'A' <= c <= 'Z' || 'a' <= c <= 'z' || '0' <= c <= '9' || c == '+' || c == '-' || c == '.'
    ensures HexChar(c) <==> '0' <= c <= '9' || 'A' <= c <= 'F' || 'a' <= c <= 'f'
    ensures TextByte(Signed(c), question, relaxed) <==>
            || 'A' <= c <= 'Z' || 'a' <= c <= 'z' || '0' <= c <= '9' || c in "!$&'()*+,-./:;=_~@"
            || (question && c == '?') || (relaxed && c in "^{}")
  {
    SignedByte(c);
  }

  /** Which characters header names and values hold: names may hold control characters, values any byte from 128 up. */
  lemma HeaderCharacters(c: char)
    requires c as int < 256
    ensures TokenByte(Signed(c)) <==>
            || 'A' <= c <= 'Z' || 'a' <= c <= 'z' || '0' <= c <= '9' || c in "!#$%&'*+-.^_`|~"
            || (1 <= c as int < 32 && c != '\t')
    ensures ValueChar(c) <==> 1 <= c as int && c as int != 127 && c != '\n' && c != '\r'
    ensures HeaderDelta(16, Signed(c)) == To(16) <==> ValueChar(c)
  {
    SignedByte(c);
  }

  /** A bracket opens an address literal at the start of a host only; a socket message begins with "<" or "@". */
  lemma OpeningCharacters(s: nat, c: char, relaxed: bool)
    requires Known(s) && s != ERROR && c as int < 256
    ensures LiteralState(Delta(s, Signed(c), relaxed).target) <==> c == '[' && (s == 34 || s == 42)
    ensures SocketState(Delta(s, Signed(c), relaxed).target) <==> (c == '<' || c == '@') && s == 1
  {
    SignedByte(c);
    hide Signed;
    if MethodState(s) {
    } else if StartState(s) || VersionState(s) {
    } else if QueryState(s) || FragmentState(s) || HeaderState(s) {
    } else if HexState(s) {
    } else {
    }
  }

  // ---- Readable text ----

  ghost predicate Escapes(buf: string, i: nat, end: nat)
    requires end <= |buf|
  {
    i + 2 < end && buf[i] == '%' && HexChar(buf[i + 1]) && HexChar(buf[i + 2])
  }

  /** Each byte is a text byte, or a percent sign with two hex digits behind it. */
  ghost predicate Spelled(buf: string, from: nat, end: nat, question: bool, relaxed: bool)
    requires end <= |buf|
  {
    forall i :: from <= i < end ==> TextByte(Signed(buf[i]), question, relaxed) || Escapes(buf, i, end)
  }

  lemma HexIsText(c: char, question: bool, relaxed: bool)
    requires c as int < 256
    ensures HexChar(c) ==> TextByte(Signed(c), question, relaxed) && c != '%'
    ensures TextByte(Signed(c), question, relaxed) ==> c != '%'
  {
  }

  lemma {:induction false} ReadableSpells(buf: string, from: nat, end: nat, question: bool, relaxed: bool)
    requires Bytes(buf) && Readable(buf, from, end, question, relaxed)
    ensures end <= |buf| && Spelled(buf, from, end, question, relaxed)
    decreases end
  {
    hide TextByte, HexChar;
    if from < end {
      if TextByte(Signed(buf[end - 1]), question, relaxed) && Readable(buf, from, end - 1, question, relaxed) {
        ReadableSpells(buf, from, end - 1, question, relaxed);
      } else {
        ReadableSpells(buf, from, end - 3, question, relaxed);
        HexIsText(buf[end - 1], question, relaxed);
        HexIsText(buf[end - 2], question, relaxed);
      }
    }
  }

  lemma {:induction false} SpellsReadable(buf: string, from: nat, end: nat, question: bool, relaxed: bool)
    requires Bytes(buf) && from <= end <= |buf| && Spelled(buf, from, end, question, relaxed)
    ensures Readable(buf, from, end, question, relaxed)
    decreases end
  {
    hide TextByte, HexChar;
    if from < end {
      forall c: char | c as int < 256
        ensures HexChar(c) || TextByte(Signed(c), question, relaxed) ==> c != '%'
      {
        HexIsText(c, question, relaxed);
      }
      assert TextByte(Signed(buf[end - 1]), question, relaxed);
      if from + 3 <= end && buf[end - 3] == '%' {
        assert Escapes(buf, end - 3, end);
        SpellsReadable(buf, from, end - 3, question, relaxed);
      } else {
        SpellsReadable(buf, from, end - 1, question, relaxed);
      }
    }
  }

  /**
   Text is readable exactly when each of its characters is one of those that need no escape, or a percent sign with two
   hex digits behind it.
   */
  lemma ReadableExactly(buf: string, from: nat, end: nat, question: bool, relaxed: bool)
    requires Bytes(buf) && from <= end <= |buf|
    ensures Readable(buf, from, end, question, relaxed) <==>
            forall i {:trigger buf[i]} :: from <= i < end ==>
              || TextByte(Signed(buf[i]), question, relaxed)
              || (buf[i] == '%' && i + 2 < end && HexChar(buf[i + 1]) && HexChar(buf[i + 2]))
  {
    hide TextByte, HexChar, Readable;
    if Readable(buf, from, end, question, relaxed) {
      ReadableSpells(buf, from, end, question, relaxed);
    }
    if forall i {:trigger buf[i]} :: from <= i < end ==>
         || TextByte(Signed(buf[i]), question, relaxed)
         || (buf[i] == '%' && i + 2 < end && HexChar(buf[i + 1]) && HexChar(buf[i + 2]))
    {
      SpellsReadable(buf, from, end, question, relaxed);
    }
  }

  // ---- The form of a path ----

  lemma HostDigits(buf: string, p: nat, a: nat)
    requires p <= a <= |buf|
    ensures var colon := FirstAt(buf, ':', p, a);
      (colon < a ==> Digits(buf, colon + 1, a)) <==>
      forall i, j :: p <= i < j < a && buf[i] == ':' ==> '0' <= buf[j] <= '9'
  {
    var colon := FirstAt(buf, ':', p, a);
    hide FirstAt;
    if colon < a {
      assert buf[colon] == ':';
    }
  }

  /** The colons behind the last "@" are those with none behind them. */
  lemma HostColons(buf: string, p: nat, host: nat, a: nat)
    requires p <= host <= a <= |buf| && (host == p || buf[host - 1] == '@')
    requires forall k :: host <= k < a ==> buf[k] != '@'
    ensures (forall i, j :: p <= i < j < a && buf[i] == ':' && (forall k :: i < k < a ==> buf[k] != '@') ==>
               '0' <= buf[j] <= '9')
       <==> (forall i, j :: host <= i < j < a && buf[i] == ':' ==> '0' <= buf[j] <= '9')
  {
    forall i | p <= i < a && buf[i] == ':' ensures (forall k :: i < k < a ==> buf[k] != '@') <==> host <= i {
    }
  }

  /** An authority has at most one "@", and only digits behind a colon of its host. */
  lemma AuthorityExactly(buf: string, p: nat, a: nat)
    requires p <= a <= |buf|
    ensures AuthorityForm(buf, p, a) <==>
            && (forall i, j :: p <= i < j < a && buf[i] == '@' ==> buf[j] != '@')
            && (forall i, j :: p <= i < j < a && buf[i] == ':' && (forall k :: i < k < a ==> buf[k] != '@') ==>
                  '0' <= buf[j] <= '9')
  {
    var at := FirstAt(buf, '@', p, a);
    var host := if at < a then at + 1 else p;
    var second := FirstAt(buf, '@', host, a);
    HostDigits(buf, host, a);
    hide FirstAt, Digits;
    if second < a {
      assert buf[at] == '@' && buf[second] == '@' && at < second;
    } else {
      HostColons(buf, p, host, a);
    }
  }

  /**
   A path, address literals aside: behind "//" an authority up to the next slash; else no colon in front of the first
   slash, unless a scheme is in front of the path.
   */
  lemma PathFormExactly(buf: string, from: nat, to: nat, schemed: bool)
    requires from <= to <= |buf|
    ensures PathForm(buf, from, to, schemed) <==>
            if from + 2 <= to && buf[from] == '/' && buf[from + 1] == '/' then
              var a := FirstAt(buf, '/', from + 2, to);
              && (forall i, j :: from + 2 <= i < j < a && buf[i] == '@' ==> buf[j] != '@')
              && (forall i, j ::
                    from + 2 <= i < j < a && buf[i] == ':' && (forall k :: i < k < a ==> buf[k] != '@') ==>
                      '0' <= buf[j] <= '9')
            else
              schemed || forall i :: from <= i < to && buf[i] == ':' ==> exists k :: from <= k < i && buf[k] == '/'
  {
    hide AuthorityForm;
    if Hosted(buf, from, to) {
      AuthorityExactly(buf, from + 2, FirstAt(buf, '/', from + 2, to));
    } else {
      var colon, slash := FirstAt(buf, ':', from, to), FirstAt(buf, '/', from, to);
      if colon < slash {
        assert buf[colon] == ':' && forall k :: from <= k < colon ==> buf[k] != '/';
      } else {
        forall i | from <= i < to && buf[i] == ':' ensures exists k :: from <= k < i && buf[k] == '/' {
          assert buf[slash] == '/';
        }
      }
    }
  }

  // ---- Methods, schemes, lines ----

  lemma MethodExactly(buf: string, n: nat)
    requires Bytes(buf)
    ensures MethodText(buf, n) <==>
            && 1 <= n <= 20 && n < |buf| && buf[n] == ' '
            && forall i :: 0 <= i < n ==> '0' <= buf[i] <= '9' || 'A' <= buf[i] <= 'Z'
  {
    if n < |buf| {
      forall i | 0 <= i < n ensures MethodByte(Signed(buf[i])) <==> '0' <= buf[i] <= '9' || 'A' <= buf[i] <= 'Z' {
        LineCharacters(buf[i], false, false);
      }
    }
  }

  lemma SchemeExactly(buf: string, from: nat, to: nat)
    requires Bytes(buf)
    ensures SchemeText(buf, from, to) <==>
            && from < to <= |buf| && ('A' <= buf[from] <= 'Z' || 'a' <= buf[from] <= 'z')
            && forall i :: from <= i < to ==>
                 || 'A' <= buf[i] <= 'Z' || 'a' <= buf[i] <= 'z' || '0' <= buf[i] <= '9'
                 || buf[i] == '+' || buf[i] == '-' || buf[i] == '.'
  {
    if from < to <= |buf| {
      LineCharacters(buf[from], false, false);
      forall i | from <= i < to
        ensures SchemeByte(Signed(buf[i])) <==>
                || 'A' <= buf[i] <= 'Z' || 'a' <= buf[i] <= 'z' || '0' <= buf[i] <= '9'
                || buf[i] == '+' || buf[i] == '-' || buf[i] == '.'
      {
        LineCharacters(buf[i], false, false);
      }
    }
  }

  ghost predicate LineSpelled(buf: string, h: Head, relaxed: bool) {
    && MethodText(buf, h.methodLen)
    && (h.uriStart == h.methodLen + 1 ||
        (h.methodLen + 2 < h.uriStart <= |buf| && buf[h.uriStart - 1] == ':'
         && SchemeText(buf, h.methodLen + 1, h.uriStart - 1)))
    && Readable(buf, h.uriStart, PathEnd(h), false, relaxed)
    && PathForm(buf, h.uriStart, PathEnd(h), Schemed(h))
    && (h.query.Some? ==>
          PathEnd(h) < |buf| && buf[PathEnd(h)] == '?' && Readable(buf, PathEnd(h) + 1, UriEnd(h), true, relaxed))
    && (h.fragment.Some? ==>
          UriEnd(h) < |buf| && buf[UriEnd(h)] == '#' && Readable(buf, UriEnd(h) + 1, TargetEnd(h), true, relaxed))
    && TargetEnd(h) < |buf| && buf[TargetEnd(h)] == ' ' && VersionAt(buf, TargetEnd(h) + 1)
  }

  lemma LineTextSpells(buf: string, h: Head, relaxed: bool)
    requires LineText(buf, h, relaxed)
    ensures LineSpelled(buf, h, relaxed)
  {
    hide Readable, Without, PathForm, MethodText, SchemeText, Bracketed, HeadText;
    LineParts(buf, h, relaxed);
  }

  lemma SpellsLineText(buf: string, h: Head, relaxed: bool)
    requires Bytes(buf) && LineSpelled(buf, h, relaxed)
    ensures LineText(buf, h, relaxed)
  {
    hide Readable, Without, PathForm, MethodText, SchemeText, Bracketed;
    PrintedRequests.ReadableWithout(buf, h.uriStart, PathEnd(h), false, relaxed);
    if h.query.Some? {
      PrintedRequests.ReadableWithout(buf, PathEnd(h) + 1, UriEnd(h), true, relaxed);
    }
    if h.fragment.Some? {
      PrintedRequests.ReadableWithout(buf, UriEnd(h) + 1, TargetEnd(h), true, relaxed);
    }
  }

  /**
   A request line: method and space; a scheme and its colon or neither; path, "?" and query, "#" and fragment; a space,
   and the version. Each part ends where the lengths of the head say.
   */
  lemma LineExactly(buf: string, h: Head, relaxed: bool)
    requires Bytes(buf)
    ensures var path := h.uriStart + h.pathLen;
      var uri := path + if h.query.Some? then 1 + h.query.value else 0;
      var target := uri + if h.fragment.Some? then 1 + h.fragment.value else 0;
      LineText(buf, h, relaxed) <==>
        && MethodText(buf, h.methodLen)
        && (h.uriStart == h.methodLen + 1 ||
            (h.methodLen + 2 < h.uriStart <= |buf| && buf[h.uriStart - 1] == ':'
             && SchemeText(buf, h.methodLen + 1, h.uriStart - 1)))
        && Readable(buf, h.uriStart, path, false, relaxed)
        && PathForm(buf, h.uriStart, path, h.uriStart != h.methodLen + 1)
        && (h.query.Some? ==> path < |buf| && buf[path] == '?' && Readable(buf, path + 1, uri, true, relaxed))
        && (h.fragment.Some? ==> uri < |buf| && buf[uri] == '#' && Readable(buf, uri + 1, target, true, relaxed))
        && target + 9 <= |buf| && buf[target] == ' ' && buf[target + 1..target + 8] == "HTTP/1."
        && (buf[target + 8] == '0' || buf[target + 8] == '1')
  {
    hide Readable, Without, PathForm, MethodText, SchemeText, Bracketed, HeadText, LineText;
    if LineText(buf, h, relaxed) {
      LineTextSpells(buf, h, relaxed);
    }
    if LineSpelled(buf, h, relaxed) {
      SpellsLineText(buf, h, relaxed);
    }
  }

  // ---- Header lines ----

  lemma LineBreakExactly(buf: string, from: nat, to: nat)
    ensures LineBreak(buf, from, to) <==>
            from < to <= |buf| && (buf[from..to] == "\n" || buf[from..to] == "\r\n")
  {
    if from < to <= |buf| {
      assert buf[from..to][0] == buf[from];
      if to == from + 1 {
        assert buf[from..to] == [buf[from]];
      } else if to == from + 2 {
        assert buf[from..to] == [buf[from], buf[from + 1]];
      }
    }
  }

  /** A header line: a name, which is not empty, a colon, blanks, and a value that does not start with one. */
  lemma PartExactly(buf: string, f: Part)
    requires Bytes(buf)
    ensures var colon := f.nameStart + f.nameLen;
      var end := f.valueStart + f.valueLen;
      PartText(buf, f) <==>
        && f.nameLen > 0 && colon < f.valueStart && end <= |buf| && buf[colon] == ':'
        && (forall i :: f.nameStart <= i < colon ==> TokenByte(Signed(buf[i])))
        && (forall i :: colon < i < f.valueStart ==> buf[i] == ' ' || buf[i] == '\t')
        && (forall i :: f.valueStart <= i < end ==> ValueChar(buf[i]))
        && (f.valueLen > 0 ==> buf[f.valueStart] != ' ' && buf[f.valueStart] != '\t')
  {
    hide TokenByte, Signed, ValueChar;
  }

  /** The `k`-th header line stands behind a line break, and does not start like an empty line. */
  ghost predicate LineAt(buf: string, from: nat, parts: seq<Part>, k: nat)
    requires k < |parts|
  {
    && LineBreak(buf, if k == 0 then from else ValueEnd(parts[k - 1]), parts[k].nameStart)
    && PartText(buf, parts[k]) && StartsName(buf, parts[k])
  }

  lemma LineAtExactly(buf: string, from: nat, parts: seq<Part>, k: nat)
    requires k < |parts|
    ensures var (f, behind) := (parts[k], if k == 0 then from else parts[k - 1].valueStart + parts[k - 1].valueLen);
      LineAt(buf, from, parts, k) <==>
        && LineBreak(buf, behind, f.nameStart) && PartText(buf, f)
        && buf[f.nameStart] != '\n' && !(buf[f.nameStart] == '\r' && buf[f.nameStart + 1] == '\n')
  {
    hide LineBreak, NameText, Blanks, ValueText;
  }

  /** The header lines of a request stand one behind the other. */
  lemma {:induction false} PartsExactly(buf: string, from: nat, parts: seq<Part>)
    ensures PartsText(buf, from, parts) && NamesStart(buf, parts) <==>
            forall k :: 0 <= k < |parts| ==> LineAt(buf, from, parts, k)
    decreases |parts|
  {
    hide LineBreak, PartText, StartsName;
    if parts != [] {
      var rest, f := parts[..|parts| - 1], parts[|parts| - 1];
      PartsExactly(buf, from, rest);
      assert forall k :: 0 <= k < |rest| ==> LineAt(buf, from, rest, k) == LineAt(buf, from, parts, k);
      assert NamesStart(buf, parts) <==> NamesStart(buf, rest) && StartsName(buf, f);
      assert PartsText(buf, from, parts) <==>
             PartsText(buf, from, rest) && LineBreak(buf, PartsEnd(from, rest), f.nameStart) && PartText(buf, f);
      assert LineAt(buf, from, parts, |rest|) <==>
             LineBreak(buf, PartsEnd(from, rest), f.nameStart) && PartText(buf, f) && StartsName(buf, f);
    }
  }

  // ---- Requests and what is reported ----

  lemma EndsAt(v: View)
    ensures var h := v.head;
      var uri := h.uriStart + h.pathLen + if h.query.Some? then 1 + h.query.value else 0;
      var line := uri + (if h.fragment.Some? then 1 + h.fragment.value else 0) + 9;
      && VersionEnd(h) == line
      && PartsEnd(VersionEnd(h), v.parts)
         == if v.parts == [] then line else v.parts[|v.parts| - 1].valueStart + v.parts[|v.parts| - 1].valueLen
  {
  }

  lemma IsRequestBy(buf: string, v: View, end: nat, relaxed: bool, line: nat, last: nat)
    requires line == VersionEnd(v.head) && last == PartsEnd(line, v.parts)
    ensures IsRequest(buf, v, end, relaxed) <==>
            && LineText(buf, v.head, relaxed) && PartsText(buf, line, v.parts) && NamesStart(buf, v.parts)
            && exists mid :: LineBreak(buf, last, mid) && LineBreak(buf, mid, end)
  {
    hide LineText, LineBreak, PartsText, NamesStart;
  }

  /** A request is its line, its header lines, and two line breaks behind the last of them. */
  lemma IsRequestExactly(buf: string, v: View, end: nat, relaxed: bool)
    ensures var h := v.head;
      var uri := h.uriStart + h.pathLen + if h.query.Some? then 1 + h.query.value else 0;
      var line := uri + (if h.fragment.Some? then 1 + h.fragment.value else 0) + 9;
      var last := if v.parts == [] then line
                  else v.parts[|v.parts| - 1].valueStart + v.parts[|v.parts| - 1].valueLen;
      IsRequest(buf, v, end, relaxed) <==>
        && LineText(buf, h, relaxed) && (forall k :: 0 <= k < |v.parts| ==> LineAt(buf, line, v.parts, k))
        && exists mid :: LineBreak(buf, last, mid) && LineBreak(buf, mid, end)
  {
    var line := VersionEnd(v.head);
    var last := PartsEnd(line, v.parts);
    PartsExactly(buf, line, v.parts);
    EndsAt(v);
    hide *;
    IsRequestBy(buf, v, end, relaxed, line, last);
  }

  /** The callbacks of a finished request by their numbers: each slice starts and ends where its part does. */
  lemma FinishesInNumbers(r: Ran, v: View, end: nat)
    requires Finishes(r, v, end)
    ensures var (h, calls, parts) := (v.head, r.regs.calls, v.parts);
      var q, f := if h.query.Some? then 1 else 0, if h.fragment.Some? then 1 else 0;
      var uri := h.uriStart + h.pathLen + if h.query.Some? then 1 + h.query.value else 0;
      var target := uri + if h.fragment.Some? then 1 + h.fragment.value else 0;
      && r.cs == 348 && r.p == end && |calls| == 5 + q + f + |parts|
      && calls[0] == Element(5, 0, h.methodLen) && calls[1] == Element(11, h.uriStart, h.pathLen)
      && (h.query.Some? ==> calls[2] == Element(9, h.uriStart + h.pathLen + 1, h.query.value))
      && calls[2 + q] == Element(6, h.uriStart, uri - h.uriStart)
      && (h.fragment.Some? ==> calls[3 + q] == Element(7, uri + 1, h.fragment.value))
      && calls[3 + q + f] == Element(10, target + 1, 8)
      && (forall k :: 0 <= k < |parts| ==>
            calls[4 + q + f + k]
            == Field(parts[k].nameStart, parts[k].nameLen, parts[k].valueStart, parts[k].valueLen))
      && calls[4 + q + f + |parts|] == HeaderDone(end)
  {
    HeadCallsTell(v.head, PartCalls(v.parts) + [HeaderDone(end)]);
    Assoc3(HeadCalls(v.head), PartCalls(v.parts), [HeaderDone(end)]);
    hide HeadCalls, PartCalls;
  }

  // ---- Bytes from 128 up ----

  ghost predicate InValue(parts: seq<Part>, i: nat) {
    exists k :: 0 <= k < |parts| && parts[k].valueStart <= i < parts[k].valueStart + parts[k].valueLen
  }

  ghost predicate Ascii(buf: string, from: nat, to: nat) {
    to <= |buf| && forall i :: from <= i < to ==> buf[i] as int < 128
  }

  lemma AsciiOn(buf: string, from: nat, mid: nat, to: nat)
    requires Ascii(buf, from, mid) && Ascii(buf, mid, to)
    ensures Ascii(buf, from, to)
  {
  }

  lemma MethodAscii(buf: string, n: nat)
    requires Bytes(buf) && MethodText(buf, n)
    ensures Ascii(buf, 0, n + 1)
  {
    MethodExactly(buf, n);
    hide MethodText;
  }

  lemma SchemeAscii(buf: string, from: nat, to: nat)
    requires Bytes(buf) && SchemeText(buf, from, to) && to < |buf| && buf[to] == ':'
    ensures Ascii(buf, from, to + 1)
  {
    SchemeExactly(buf, from, to);
    hide SchemeText;
  }

  lemma ReadableAscii(buf: string, from: nat, to: nat, question: bool, relaxed: bool)
    requires Bytes(buf) && Readable(buf, from, to, question, relaxed)
    ensures Ascii(buf, from, to)
  {
    ReadableSpells(buf, from, to, question, relaxed);
    hide Readable;
    forall i | from <= i < to ensures buf[i] as int < 128 {
      LineCharacters(buf[i], question, relaxed);
    }
  }

  lemma VersionAscii(buf: string, from: nat)
    requires VersionAt(buf, from) && from > 0 && buf[from - 1] == ' '
    ensures Ascii(buf, from - 1, from + 8)
  {
    forall i | from <= i < from + 7 ensures buf[i] as int < 128 {
      assert buf[i] == buf[from..from + 7][i - from] == VERSION_TEXT[i - from];
    }
  }

  lemma MarkedAscii(buf: string, from: nat, to: nat, relaxed: bool)
    requires Bytes(buf) && from < to <= |buf| && Readable(buf, from + 1, to, true, relaxed)
    requires buf[from] == '?' || buf[from] == '#'
    ensures Ascii(buf, from, to)
  {
    ReadableAscii(buf, from + 1, to, true, relaxed);
    hide Readable;
  }

  lemma StartAscii(buf: string, h: Head)
    requires Bytes(buf) && MethodText(buf, h.methodLen) && h.methodLen + 1 <= h.uriStart
    requires Schemed(h) ==> SchemeText(buf, h.methodLen + 1, h.uriStart - 1) && h.uriStart <= |buf|
                            && buf[h.uriStart - 1] == ':' && h.methodLen + 1 < h.uriStart - 1
    ensures Ascii(buf, 0, h.uriStart)
  {
    hide MethodText, SchemeText;
    MethodAscii(buf, h.methodLen);
    if Schemed(h) {
      SchemeAscii(buf, h.methodLen + 1, h.uriStart - 1);
    }
  }

  lemma TargetAscii(buf: string, h: Head, relaxed: bool)
    requires Bytes(buf) && LineText(buf, h, relaxed)
    ensures Ascii(buf, PathEnd(h), TargetEnd(h))
  {
    LineParts(buf, h, relaxed);
    hide *;
    AsciiNone(buf, PathEnd(h));
    if h.query.Some? {
      MarkedAscii(buf, PathEnd(h), UriEnd(h), relaxed);
    }
    if h.fragment.Some? {
      MarkedAscii(buf, UriEnd(h), TargetEnd(h), relaxed);
      AsciiOn(buf, PathEnd(h), UriEnd(h), TargetEnd(h));
    }
  }

  lemma AsciiNone(buf: string, p: nat)
    requires p <= |buf|
    ensures Ascii(buf, p, p)
  {
  }

  /** Every byte of a request line is below 128. */
  lemma LineAscii(buf: string, h: Head, relaxed: bool)
    requires Bytes(buf) && LineText(buf, h, relaxed)
    ensures Ascii(buf, 0, VersionEnd(h))
  {
    LineParts(buf, h, relaxed);
    assert Readable(buf, h.uriStart, PathEnd(h), false, relaxed);
    hide *;
    StartAscii(buf, h);
    ReadableAscii(buf, h.uriStart, PathEnd(h), false, relaxed);
    TargetAscii(buf, h, relaxed);
    VersionAscii(buf, TargetEnd(h) + 1);
    AsciiOn(buf, 0, h.uriStart, PathEnd(h));
    AsciiOn(buf, 0, PathEnd(h), TargetEnd(h));
    AsciiOn(buf, 0, TargetEnd(h), VersionEnd(h));
  }

  lemma PartAscii(buf: string, f: Part)
    requires Bytes(buf) && PartText(buf, f)
    ensures Ascii(buf, f.nameStart, f.valueStart)
  {
    hide TokenByte;
    forall i | f.nameStart <= i < f.nameStart + f.nameLen ensures buf[i] as int < 128 {
      HeaderCharacters(buf[i]);
    }
  }

  lemma {:induction false} PartsAscii(buf: string, from: nat, parts: seq<Part>)
    requires Bytes(buf) && PartsText(buf, from, parts)
    ensures from <= PartsEnd(from, parts) && (parts != [] ==> PartsEnd(from, parts) <= |buf|)
    ensures forall i :: from <= i < PartsEnd(from, parts) && buf[i] as int >= 128 ==> InValue(parts, i)
    decreases |parts|
  {
    if parts != [] {
      var rest, f := parts[..|parts| - 1], parts[|parts| - 1];
      PartsAscii(buf, from, rest);
      PartAscii(buf, f);
      hide PartsText, NameText, Blanks, ValueText;
      forall i | from <= i < ValueEnd(f) && buf[i] as int >= 128 ensures InValue(parts, i) {
        if i < PartsEnd(from, rest) {
          var k :| 0 <= k < |rest| && rest[k].valueStart <= i < rest[k].valueStart + rest[k].valueLen;
          assert parts[k] == rest[k];
        } else {
          assert f.valueStart <= i;
        }
      }
    }
  }

  lemma BreaksAscii(buf: string, from: nat, mid: nat, end: nat)
    requires LineBreak(buf, from, mid) && LineBreak(buf, mid, end)
    ensures from <= end && Ascii(buf, from, end)
  {
  }

  /** In a request every byte from 128 up, in front of the body, belongs to the value of a header. */
  lemma RequestAscii(buf: string, v: View, end: nat, relaxed: bool)
    requires Bytes(buf) && IsRequest(buf, v, end, relaxed)
    ensures end <= |buf|
    ensures forall i :: 0 <= i < end && buf[i] as int >= 128 ==>
              exists k :: 0 <= k < |v.parts| && v.parts[k].valueStart <= i < v.parts[k].valueStart + v.parts[k].valueLen
  {
    var from := VersionEnd(v.head);
    var last := PartsEnd(from, v.parts);
    var line :| LineBreak(buf, last, line) && LineBreak(buf, line, end);
    hide LineText, PartsText, NamesStart, LineBreak, PartsEnd, VersionEnd, IsRequest;
    LineAscii(buf, v.head, relaxed);
    PartsAscii(buf, from, v.parts);
    BreaksAscii(buf, last, line, end);
    forall i | 0 <= i < end && buf[i] as int >= 128 ensures InValue(v.parts, i) {
      assert from <= i < last;
    }
  }

  /**
   So in a finished request whose path has no bracket: method, scheme, target, version and header names, and all that
   stands between them, are bytes below 128.
   */
  lemma FinishedAscii(t: Tables, relaxed: bool, garbage: nat, buf: string, v: View, end: nat)
    requires IsRequestTable(t) && Bytes(buf) && Finishes(FreshRun(t, relaxed, garbage, buf), v, end)
    requires forall i :: v.head.uriStart <= i < v.head.uriStart + v.head.pathLen && i < |buf| ==> buf[i] != '['
    ensures end <= |buf|
    ensures forall i :: 0 <= i < end && buf[i] as int >= 128 ==>
              exists k :: 0 <= k < |v.parts| && v.parts[k].valueStart <= i < v.parts[k].valueStart + v.parts[k].valueLen
  {
    var line := FinishedParts(t, relaxed, garbage, buf, v, end);
    assert Readable(buf, v.head.uriStart, PathEnd(v.head), false, relaxed) by {
      hide Readable, Without, StartText, FreshRun, Finishes;
    }
    hide *;
    FinishedIsRequest(t, relaxed, garbage, buf, v, end);
    RequestAscii(buf, v, end, relaxed);
  }

  /** Only where header values are read does a byte from 128 up have a transition. */
  lemma HighDelta(s: nat, c: char, relaxed: bool)
    requires Known(s) && s != ERROR && 128 <= c as int < 256
    ensures Delta(s, Signed(c), relaxed)
         == if s == 15 then Edge(16, [START_VALUE]) else if s == 16 then To(16) else FAIL
  {
    SignedByte(c);
    hide Signed, Known;
    if HeaderState(s) {
    } else if QueryState(s) || FragmentState(s) {
    } else if MethodState(s) || VersionState(s) {
    } else {
    }
  }

  /**
   Such a byte kills every run that comes to it anywhere else, address literals and the socket formats aside: the run
   ends in error at this byte, and reports nothing more. In a value it goes on.
   */
  lemma HighByteDies(t: Tables, relaxed: bool, garbage: nat, buf: string, p: nat)
    requires IsRequestTable(t) && Bytes(buf) && p < |buf| && buf[p] as int >= 128
    requires var r := FreshRun(t, relaxed, garbage, buf[..p]); !r.done && r.cs != ERROR && Known(r.cs)
    ensures var r, whole := FreshRun(t, relaxed, garbage, buf[..p]), FreshRun(t, relaxed, garbage, buf);
      if r.cs == 15 || r.cs == 16 then whole.p > p
      else whole.cs == 0 && !whole.done && whole.p == p && whole.regs == r.regs
  {
    var g := Initial(garbage).regs;
    var r := FreshRun(t, relaxed, garbage, buf[..p]);
    InTable(t);
    hide Run, IsRequestTable, WellFormed, Delta, Taken;
    RunPrefix(t, relaxed, START, g, buf, p, 0);
    RunStep(t, relaxed, r.cs, r.regs, buf, p);
    TakenIsDelta(t, relaxed, r.cs, buf[p]);
    HighDelta(r.cs, buf[p], relaxed);
  }

  /** In the path, for one: behind "GET /" a byte from 128 up is the dead byte, whatever follows. */
  lemma HighPathDies(t: Tables, relaxed: bool, garbage: nat, c: char, more: string)
    requires IsRequestTable(t) && 128 <= c as int < 256 && Bytes(more)
    ensures var r := FreshRun(t, relaxed, garbage, "GET /" + [c] + more);
      FinishCode(r.cs) == -1 && r.p == 5 && r.regs.calls == [Element(5, 0, 3)]
  {
    CodeOfError();
    hide *;
    HighPathText(c, more);
    GetSlash(t, relaxed, garbage);
    HighByteDies(t, relaxed, garbage, "GET /" + [c] + more, 5);
  }

  lemma CodeOfError()
    ensures FinishCode(0) == -1 && Known(33) && ERROR == 0
  {
  }

  lemma HighPathText(c: char, more: string)
    requires 128 <= c as int < 256 && Bytes(more)
    ensures var buf := "GET /" + [c] + more; |buf| > 5 && Bytes(buf) && buf[..5] == "GET /" && buf[5] == c
  {
  }

  lemma GetText()
    ensures var buf := "GET /"; |buf| == 5 && Bytes(buf) && MethodText(buf, 3) && buf[4] == '/'
    ensures Known(3) && Edge(33, [MARK]) == Delta(3, 47, true) == Delta(3, 47, false) && Signed('/') == 47
  {
  }

  lemma SlashFired(g: Regs)
    ensures Fired(Asked(g, 3), [MARK], 4).calls == [Element(5, 0, 3)] && DONE !in [MARK]
  {
  }

  lemma GetSlash(t: Tables, relaxed: bool, garbage: nat)
    requires IsRequestTable(t)
    ensures var r := FreshRun(t, relaxed, garbage, "GET /");
      r.cs == 33 && !r.done && r.regs.calls == [Element(5, 0, 3)]
  {
    var buf := "GET /";
    var g := FreshRegs(t, relaxed, garbage, buf);
    InTable(t);
    GetText();
    SlashFired(g);
    hide *;
    MethodCloses(t, relaxed, g, buf, 3);
    Goes(t, relaxed, 3, Asked(g, 3), buf, 4, Edge(33, [MARK]));
    RunHalts(t, relaxed, 33, Fired(Asked(g, 3), [MARK], 4), buf, 5);
  }
}
