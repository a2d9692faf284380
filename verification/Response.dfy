/**
 The response: its setters, `serialize`, and `send`, which adds a Content-Length header and puts the body
 behind the printed head.

 The first empty line of a sent message is the end of its head, so a reader finds exactly the body behind it,
 and the decimal number in the last header is the body's length.
 */
module Response {
  import opened Prelude
  import opened Splitting
  import opened TextParser

  const CONTENT_LENGTH: string := "Content-Length"

  // ---- Decimal numbers, as `std::to_string` prints them ----

  function Digit(d: nat): (c: char)
    requires d < 10
    ensures '0' <= c <= '9'
  {
    '0' + d as char
  }

  function Decimal(n: nat): (r: string)
    ensures r != [] && forall i :: 0 <= i < |r| ==> '0' <= r[i] <= '9'
  {
    if n < 10 then [Digit(n)] else Decimal(n / 10) + [Digit(n % 10)]
  }

  function DecimalInt(n: int): string {
    if n < 0 then "-" + Decimal(-n) else Decimal(n)
  }

  /** The number a run of digits stands for. */
  function ValueOf(s: string): nat
    requires forall i :: 0 <= i < |s| ==> '0' <= s[i] <= '9'
  {
    if s == [] then 0 else ValueOf(s[..|s| - 1]) * 10 + (s[|s| - 1] - '0') as nat
  }

  lemma {:induction false} DecimalReadsBack(n: nat)
    ensures ValueOf(Decimal(n)) == n
  {
    if n < 10 {
      assert Decimal(n)[..0] == [];
    } else {
      DecimalReadsBack(n / 10);
      assert Decimal(n)[..|Decimal(n)| - 1] == Decimal(n / 10);
    }
  }

  lemma LastDigit(n: nat, v: nat, d: nat)
    requires d < 10
    ensures v * 10 + d == n <==> v == n / 10 && d == n % 10
  {
  }

  lemma DecimalSteps(front: string, c: char, n: nat)
    requires front != [] && '0' <= c <= '9'
    ensures front + [c] == Decimal(n) <==> n >= 10 && front == Decimal(n / 10) && (c - '0') as nat == n % 10
  {
    if n >= 10 {
      assert Decimal(n) == Decimal(n / 10) + [Digit(n % 10)];
      assert front + [c] == Decimal(n) ==> front == (front + [c])[..|front|] == Decimal(n / 10);
    } else {
      assert |Decimal(n)| == 1;
    }
  }

  lemma OneDigit(c: char, n: nat)
    requires '0' <= c <= '9'
    ensures ValueOf([c]) == (c - '0') as nat
    ensures [c] == Decimal(n) <==> (c - '0') as nat == n
  {
    assert [c][..0] == [];
  }

  lemma ValueSteps(front: string, c: char)
    requires (forall i :: 0 <= i < |front| ==> '0' <= front[i] <= '9') && '0' <= c <= '9'
    ensures forall i :: 0 <= i < |front + [c]| ==> '0' <= (front + [c])[i] <= '9'
    ensures ValueOf(front + [c]) == ValueOf(front) * 10 + (c - '0') as nat
  {
    assert (front + [c])[..|front|] == front;
  }

  /** The decimal text of a number is the one run of digits that reads back as it and has no zero in front. */
  lemma {:induction false} DecimalExactly(s: string, n: nat)
    requires s != [] && forall i :: 0 <= i < |s| ==> '0' <= s[i] <= '9'
    ensures s == Decimal(n) <==> ValueOf(s) == n && (|s| == 1 || s[0] != '0')
    decreases |s|
  {
    var front, c := s[..|s| - 1], s[|s| - 1];
    var d := (c - '0') as nat;
    assert s == front + [c];
    hide ValueOf, Decimal;
    if front == [] {
      assert s == [c];
      OneDigit(c, n);
    } else {
      ValueSteps(front, c);
      DecimalSteps(front, c, n);
      LastDigit(n, ValueOf(front), d);
      DecimalExactly(front, n / 10);
      assert s[0] == front[0];
      if s[0] != '0' {
        LeadingDigit(front);
      } else if |front| == 1 {
        assert front == [front[0]];
        OneDigit(front[0], n / 10);
      }
    }
  }

  lemma {:induction false} LeadingDigit(s: string)
    requires s != [] && forall i :: 0 <= i < |s| ==> '0' <= s[i] <= '9'
    requires s[0] != '0'
    ensures ValueOf(s) > 0
    decreases |s|
  {
    if |s| > 1 {
      LeadingDigit(s[..|s| - 1]);
    }
  }

  /** Status texts read back: digits for a code that is not negative, a minus sign and digits for one that is. */
  lemma StatusReadsBack(code: int)
    ensures var s := DecimalInt(code);
      if code >= 0 then
        s != [] && (forall i :: 0 <= i < |s| ==> '0' <= s[i] <= '9') && ValueOf(s) == code
      else
        && |s| > 1 && s[0] == '-'
        && (forall i :: 0 <= i < |s[1..]| ==> '0' <= s[1..][i] <= '9') && ValueOf(s[1..]) == -code
  {
    if code >= 0 {
      DecimalReadsBack(code);
    } else {
      DecimalReadsBack(-code);
      assert DecimalInt(code)[1..] == Decimal(-code);
    }
  }

  /** No two codes have the same text. */
  lemma StatusesDiffer(m: int, n: int)
    ensures DecimalInt(m) == DecimalInt(n) <==> m == n
  {
    StatusReadsBack(m);
    StatusReadsBack(n);
    hide DecimalInt, ValueOf;
  }

  lemma StatusTexts()
    ensures DecimalInt(200) == "200" && DecimalInt(404) == "404" && DecimalInt(0) == "0" && DecimalInt(-1) == "-1"
  {
    assert ValueOf("200") == 200 && ValueOf("404") == 404 by {
      assert "200"[..2] == "20" && "20"[..1] == "2" && "2"[..0] == "";
      assert "404"[..2] == "40" && "40"[..1] == "4" && "4"[..0] == "";
    }
    hide ValueOf;
    DecimalExactly("200", 200);
    DecimalExactly("404", 404);
  }

  lemma DigitsArePlain(s: string)
    requires forall i :: 0 <= i < |s| ==> '0' <= s[i] <= '9'
    ensures Plain(s) && ':' !in s && TrimWhitespace(s) == s
  {
    NoCrNoBreak(s);
    assert s == "" + s + "";
    TrimIsUnique(s, "", s, "");
  }

  // ---- Printed headers ----

  /** One more header is one more line: its name, a colon with nothing around it, its value, a line break. */
  lemma {:induction false} PrintsNext(hs: Headers, h: (string, string))
    ensures PrintHeaders([]) == "" && PrintHeaders(hs + [h]) == PrintHeaders(hs) + (h.0 + ":" + h.1 + "\r\n")
    decreases |hs|
  {
    if hs == [] {
      assert [] + [h] == [h] && [h][1..] == [];
      assert PrintHeader(h) + CRLF + "" == h.0 + ":" + h.1 + "\r\n";
    } else {
      PrintsNext(hs[1..], h);
      assert (hs + [h])[1..] == hs[1..] + [h];
      var first, line := PrintHeader(hs[0]) + CRLF, h.0 + ":" + h.1 + "\r\n";
      assert first + (PrintHeaders(hs[1..]) + line) == first + PrintHeaders(hs[1..]) + line;
    }
  }

  // ---- The response as an object ----

  class HttpResponse {
    var version: string
    var status: string
    var statusText: string
    var headerList: Headers

    constructor ()
      ensures version == "HTTP/1.0" && status == "200" && statusText == "OK" && headerList == []
    {
      version, status, statusText, headerList := "HTTP/1.0", "200", "OK", [];
    }

    ghost function Printed(): string
      reads this
    {
      PrintHead(version, status, statusText, headerList)
    }

    method SetStatus(code: int)
      modifies this`status
      ensures status == DecimalInt(code)
      ensures if code >= 0 then
                (forall i :: 0 <= i < |status| ==> '0' <= status[i] <= '9') && ValueOf(status) == code
              else
                && |status| > 1 && status[0] == '-'
                && (forall i :: 0 <= i < |status[1..]| ==> '0' <= status[1..][i] <= '9')
                && ValueOf(status[1..]) == -code
    {
      StatusReadsBack(code);
      status := DecimalInt(code);
    }

    method SetStatusText(text: string)
      modifies this`statusText
      ensures statusText == text
    {
      statusText := text;
    }

    method SetVersion(v: string)
      modifies this`version
      ensures version == v
    {
      version := v;
    }

    method SetHeader(key: string, value: string)
      modifies this`headerList
      ensures headerList == old(headerList) + [(key, value)]
    {
      headerList := headerList + [(key, value)];
    }

    method Serialize() returns (raw: string)
      ensures raw == Printed()
      ensures raw == version + " " + status + " " + statusText + "\r\n" + PrintHeaders(headerList) + "\r\n"
    {
      raw := version + " " + status + " " + statusText + CRLF;
      var i := 0;
      assert headerList[0..] == headerList;
      while i < |headerList|
        invariant i <= |headerList|
        invariant raw + PrintHeaders(headerList[i..])
               == FirstLine(version, status, statusText) + CRLF + PrintHeaders(headerList)
      {
        var (k, v) := headerList[i];
        ghost var rest := PrintHeaders(headerList[i + 1..]);
        assert headerList[i..][1..] == headerList[i + 1..] && headerList[i..][0] == (k, v);
        assert raw + (k + ":" + v + CRLF + rest) == raw + k + ":" + v + CRLF + rest;
        raw := raw + k + ":" + v + CRLF;
        i := i + 1;
      }
      assert raw + "" == raw;
      raw := raw + CRLF;
    }

    /** `send`: the text handed to the socket. */
    method Send(body: string) returns (message: string)
      modifies this`headerList
      ensures headerList == old(headerList) + [(CONTENT_LENGTH, Decimal(|body|))]
      ensures headerList == AfterSends(old(headerList), [body])
      ensures message == Printed() + body
      ensures |headerList| == |old(headerList)| + 1 && headerList[|old(headerList)|].0 == "Content-Length"
      ensures message == version + " " + status + " " + statusText + "\r\n" + PrintHeaders(headerList) + "\r\n" + body
    {
      SetHeader(CONTENT_LENGTH, Decimal(|body|));
      var head := Serialize();
      message := head + body;
    }
  }

  // ---- Framing ----

  ghost predicate BreakFreeHeaders(hs: Headers) {
    forall i :: 0 <= i < |hs| ==> BreakFree(hs[i].0) && BreakFree(hs[i].1)
  }

  lemma EndStartsBreak(s: string, j: nat)
    requires MatchesAt(s, END, j)
    ensures MatchesAt(s, CRLF, j) && MatchesAt(s, CRLF, j + 2)
  {
    assert s[j..j + 2] == s[j..j + 4][..2] && s[j + 2..j + 4] == s[j..j + 4][2..];
  }

  /** Before the line break behind a break-free line there is no empty line. */
  lemma NoEarlyEnd(line: string, rest: string, j: nat)
    requires j < |line| && MatchesAt(line + CRLF + rest, END, j)
    ensures !BreakFree(line)
  {
    EndStartsBreak(line + CRLF + rest, j);
    CrlfBorderFree();
    EarlyMatch(line, CRLF, rest, j);
  }

  /** Nor at the line break itself, when a break-free line that is not empty follows. */
  lemma NoEndAtBreak(line: string, next: string, rest: string, j: nat)
    requires next != [] && |line| <= j < |line| + 2 && MatchesAt(line + CRLF + (next + CRLF + rest), END, j)
    ensures !BreakFree(next)
  {
    var tail := next + CRLF + rest;
    var s := line + CRLF + tail;
    assert s[j] == s[j..j + 4][0] == '\r';
    assert j == |line|;
    EndStartsBreak(s, j);
    assert s[|line| + 2..] == tail;
    MatchShift(s, CRLF, |line| + 2, 0);
    CrlfBorderFree();
    EarlyMatch(next, CRLF, rest, 0);
  }

  lemma PrintedShape(first: string, hs: Headers, body: string)
    requires hs != []
    ensures first + CRLF + PrintHeaders(hs) + CRLF + body
         == first + CRLF + (PrintHeader(hs[0]) + CRLF + (PrintHeaders(hs[1..]) + CRLF + body))
  {
    assert PrintHeaders(hs) == PrintHeader(hs[0]) + CRLF + PrintHeaders(hs[1..]);
  }

  /** A line with a non-empty break-free line behind it moves the first empty line along. */
  lemma EndBehindLine(line: string, next: string, rest: string)
    requires BreakFree(line) && BreakFree(next) && next != []
    requires Find(next + CRLF + rest, END, 0).Some?
    ensures Find(line + CRLF + (next + CRLF + rest), END, 0)
         == Some(|line| + 2 + Find(next + CRLF + rest, END, 0).value)
  {
    hide Find, MatchesAt, BreakFree;
    var tail := next + CRLF + rest;
    var s := line + CRLF + tail;
    var from := |line| + 2;
    assert s[from..] == tail;
    FindShift(s, END, from);
    forall j: nat | j < from ensures !MatchesAt(s, END, j) {
      if MatchesAt(s, END, j) {
        if j < |line| {
          NoEarlyEnd(line, tail, j);
        } else {
          NoEndAtBreak(line, next, rest, j);
        }
      }
    }
    FindIs(s, END, 0, Find(s, END, from));
  }

  lemma EndStands(line: string, body: string)
    ensures MatchesAt(line + CRLF + (CRLF + body), END, |line|)
  {
    assert line + CRLF + (CRLF + body) == line + END + body;
  }

  /** Behind the last line the empty line comes at once. */
  lemma EndAtBreak(line: string, body: string)
    requires BreakFree(line)
    ensures Find(line + CRLF + (CRLF + body), END, 0) == Some(|line|)
  {
    var s := line + CRLF + (CRLF + body);
    hide MatchesAt, BreakFree, Find;
    EndStands(line, body);
    if j: nat :| j < |line| && MatchesAt(s, END, j) {
      NoEarlyEnd(line, CRLF + body, j);
    }
    FindIs(s, END, 0, Some(|line|));
  }

  /** The first empty line stands right behind the last header line. */
  lemma {:induction false} FirstEmptyLine(first: string, hs: Headers, body: string)
    requires BreakFree(first) && BreakFreeHeaders(hs)
    ensures Find(first + CRLF + PrintHeaders(hs) + CRLF + body, END, 0) == Some(|first| + |PrintHeaders(hs)|)
    decreases |hs|
  {
    hide Find, BreakFree;
    var s := first + CRLF + PrintHeaders(hs) + CRLF + body;
    if hs == [] {
      assert s == first + CRLF + (CRLF + body);
      EndAtBreak(first, body);
    } else {
      var next, rest := PrintHeader(hs[0]), PrintHeaders(hs[1..]) + CRLF + body;
      PrintedShape(first, hs, body);
      BreakFreeAround(hs[0].0, ':', hs[0].1);
      assert next + CRLF + PrintHeaders(hs[1..]) + CRLF + body == next + CRLF + rest;
      FirstEmptyLine(next, hs[1..], body);
      EndBehindLine(first, next, rest);
    }
  }

  /**
   Framing: in a sent message with break-free parts, the first empty line ends the head, what follows is the
   body, and the last header reads back as the body's length.
   */
  lemma SentMessageFrames(a: string, b: string, c: string, hs: Headers, body: string)
    requires BreakFree(a) && BreakFree(b) && BreakFree(c) && BreakFreeHeaders(hs)
    ensures var length := (CONTENT_LENGTH, Decimal(|body|));
      var message := PrintHead(a, b, c, hs + [length]) + body;
      var at := Find(message, END, 0);
      && at.Some? && message[at.value + 4..] == body
      && message[..at.value + 4] == PrintHead(a, b, c, hs + [length])
      && ValueOf(length.1) == |message[at.value + 4..]|
  {
    var length := (CONTENT_LENGTH, Decimal(|body|));
    var all := hs + [length];
    DigitsArePlain(length.1);
    ContentLengthPlain();
    BreakFreeAround(a, ' ', b);
    BreakFreeAround(a + " " + b, ' ', c);
    FirstEmptyLine(FirstLine(a, b, c), all, body);
    DecimalReadsBack(|body|);
    var head := PrintHead(a, b, c, all);
    assert |head| == |FirstLine(a, b, c)| + |PrintHeaders(all)| + 4;
    assert (head + body)[..|head|] == head && (head + body)[|head|..] == body;
  }

  lemma ContentLengthPlain()
    ensures Plain(CONTENT_LENGTH) && ':' !in CONTENT_LENGTH
  {
    NoCrNoBreak(CONTENT_LENGTH);
  }

  /** The head of a sent message, read by the text parser, ends with its Content-Length. */
  lemma ParserReadsLength(a: string, b: string, c: string, hs: Headers, body: string)
    requires Plain(a) && Plain(b) && Plain(c) && PlainHeaders(hs) && ' ' !in a && ' ' !in b
    ensures var length := (CONTENT_LENGTH, Decimal(|body|));
      var r := Parse(PrintHead(a, b, c, hs + [length]));
      r.Complete? && r.request.headers == Kept(hs) + [length]
  {
    var length := (CONTENT_LENGTH, Decimal(|body|));
    DigitsArePlain(length.1);
    ContentLengthPlain();
    hide Parse, PrintHead, BreakFree, Split, Decimal;
    PrintedParses(a, b, c, hs + [length]);
    KeptAppend(hs, [length]);
    assert [length][1..] == [];
    assert Kept([length]) == [length] + [] == [length];
  }

  lemma {:induction false} KeptAppend(a: Headers, b: Headers)
    ensures Kept(a + b) == Kept(a) + Kept(b)
    decreases |a|
  {
    hide KeptHeader;
    if a == [] {
      assert a + b == b;
    } else {
      KeptAppend(a[1..], b);
      KeptCons(a[0], a[1..] + b);
      assert [a[0]] + (a[1..] + b) == a + b;
    }
  }

  lemma KeptCons(h: (string, string), hs: Headers)
    ensures Kept([h] + hs) == KeptHeader(h) + Kept(hs)
  {
    assert ([h] + hs)[1..] == hs;
  }

  // ---- Sending twice ----

  /** The value a reader finds who takes the first header of a name. */
  function FirstUnder(hs: Headers, key: string): Option<string> {
    if hs == [] then None else if hs[0].0 == key then Some(hs[0].1) else FirstUnder(hs[1..], key)
  }

  lemma {:induction false} FirstStaysFirst(hs: Headers, h: (string, string))
    ensures FirstUnder(hs + [h], h.0) == if FirstUnder(hs, h.0).Some? then FirstUnder(hs, h.0) else Some(h.1)
    decreases |hs|
  {
    if hs == [] {
      assert hs + [h] == [h];
    } else {
      assert (hs + [h])[1..] == hs[1..] + [h];
      FirstStaysFirst(hs[1..], h);
    }
  }

  lemma DecimalsDiffer(m: nat, n: nat)
    ensures Decimal(m) == Decimal(n) <==> m == n
  {
    DecimalReadsBack(m);
    DecimalReadsBack(n);
  }

  /** The headers after sending bodies one after the other on one response. */
  function AfterSends(hs: Headers, bodies: seq<string>): Headers
    decreases |bodies|
  {
    if bodies == [] then hs else AfterSends(hs + [(CONTENT_LENGTH, Decimal(|bodies[0]|))], bodies[1..])
  }

  /**
   What a reader makes of the latest message: the head ends at the first empty line, and the first Content-Length
   says how many bytes behind it are the body.
   */
  ghost predicate ReadsBody(message: string, hs: Headers, body: string) {
    var at, length := Find(message, END, 0), FirstUnder(hs, CONTENT_LENGTH);
    && at.Some? && length == Some(Decimal(|message[at.value + 4..]|)) && message[at.value + 4..] == body
  }

  lemma {:induction false} FirstSendCounts(hs: Headers, bodies: seq<string>)
    requires FirstUnder(hs, CONTENT_LENGTH).Some?
    ensures FirstUnder(AfterSends(hs, bodies), CONTENT_LENGTH) == FirstUnder(hs, CONTENT_LENGTH)
    decreases |bodies|
  {
    if bodies != [] {
      var h := (CONTENT_LENGTH, Decimal(|bodies[0]|));
      FirstStaysFirst(hs, h);
      FirstSendCounts(hs + [h], bodies[1..]);
    }
  }

  lemma {:induction false} SendsAppend(hs: Headers, bodies: seq<string>, last: string)
    ensures AfterSends(hs, bodies + [last]) == AfterSends(hs, bodies) + [(CONTENT_LENGTH, Decimal(|last|))]
    decreases |bodies|
  {
    if bodies == [] {
      assert bodies + [last] == [last] && [last][1..] == [];
    } else {
      assert (bodies + [last])[1..] == bodies[1..] + [last];
      SendsAppend(hs + [(CONTENT_LENGTH, Decimal(|bodies[0]|))], bodies[1..], last);
    }
  }

  lemma {:induction false} SendsStayBreakFree(hs: Headers, bodies: seq<string>)
    requires BreakFreeHeaders(hs)
    ensures BreakFreeHeaders(AfterSends(hs, bodies))
    decreases |bodies|
  {
    hide BreakFree;
    if bodies != [] {
      DigitsArePlain(Decimal(|bodies[0]|));
      ContentLengthPlain();
      SendsStayBreakFree(hs + [(CONTENT_LENGTH, Decimal(|bodies[0]|))], bodies[1..]);
    }
  }

  /**
   Sending bodies one after the other on a response frames the last of them rightly exactly when the Content-Length
   that comes first, set by hand or by the first `send`, is its length: `send` appends a length and never replaces one.
   */
  lemma SendsFrameExactly(a: string, b: string, c: string, hs: Headers, others: seq<string>, last: string)
    requires BreakFree(a) && BreakFree(b) && BreakFree(c) && BreakFreeHeaders(hs)
    ensures var first := if others == [] then last else others[0];
      var all := AfterSends(hs, others + [last]);
      && FirstUnder(all, CONTENT_LENGTH) == FirstUnder(hs + [(CONTENT_LENGTH, Decimal(|first|))], CONTENT_LENGTH)
      && (ReadsBody(PrintHead(a, b, c, all) + last, all, last)
          <==> FirstUnder(all, CONTENT_LENGTH) == Some(Decimal(|last|)))
  {
    SendsAppend(hs, others, last);
    SendsStayBreakFree(hs, others);
    FirstLengthStays(hs, others, last);
    hide AfterSends, FirstUnder, BreakFree, Find, Decimal, PrintHead, BreakFreeHeaders;
    SentMessageFrames(a, b, c, AfterSends(hs, others), last);
  }

  lemma FirstLengthStays(hs: Headers, others: seq<string>, last: string)
    ensures var first := if others == [] then last else others[0];
      FirstUnder(AfterSends(hs, others + [last]), CONTENT_LENGTH)
      == FirstUnder(hs + [(CONTENT_LENGTH, Decimal(|first|))], CONTENT_LENGTH)
  {
    var first := if others == [] then last else others[0];
    var rest := (others + [last])[1..];
    FirstStaysFirst(hs, (CONTENT_LENGTH, Decimal(|first|)));
    FirstSendCounts(hs + [(CONTENT_LENGTH, Decimal(|first|))], rest);
  }

  /** So without a Content-Length set by hand, a later body is framed rightly exactly when as long as the first. */
  lemma LaterSendsFrameExactly(a: string, b: string, c: string, hs: Headers, first: string, others: seq<string>,
                               last: string)
    requires BreakFree(a) && BreakFree(b) && BreakFree(c) && BreakFreeHeaders(hs)
    requires FirstUnder(hs, CONTENT_LENGTH).None?
    ensures var all := AfterSends(hs, [first] + others + [last]);
      && FirstUnder(all, CONTENT_LENGTH) == Some(Decimal(|first|))
      && (ReadsBody(PrintHead(a, b, c, all) + last, all, last) <==> |last| == |first|)
  {
    FirstStaysFirst(hs, (CONTENT_LENGTH, Decimal(|first|)));
    hide AfterSends, FirstUnder, BreakFree, ReadsBody, Decimal, PrintHead, BreakFreeHeaders;
    SendsFrameExactly(a, b, c, hs, [first] + others, last);
    DecimalsDiffer(|first|, |last|);
  }

  /** Two bodies of different length on a fresh response: a reader of the second message is misled. */
  lemma SecondSendMisframes()
    ensures var all := AfterSends([], ["hello", "bye"]);
      !ReadsBody(PrintHead("HTTP/1.0", "200", "OK", all) + "bye", all, "bye")
  {
    NoCrNoBreak("HTTP/1.0");
    NoCrNoBreak("200");
    NoCrNoBreak("OK");
    hide BreakFree, AfterSends, ReadsBody, PrintHead;
    LaterSendsFrameExactly("HTTP/1.0", "200", "OK", [], "hello", [], "bye");
    assert ["hello"] + [] + ["bye"] == ["hello", "bye"];
  }

  /** With a Content-Length set by hand the first body is misframed already. */
  lemma LengthByHandMisframes()
    ensures var all := AfterSends([(CONTENT_LENGTH, "3")], ["hello"]);
      !ReadsBody(PrintHead("HTTP/1.0", "200", "OK", all) + "hello", all, "hello")
  {
    NoCrNoBreak("HTTP/1.0");
    NoCrNoBreak("200");
    NoCrNoBreak("OK");
    DigitsArePlain("3");
    ContentLengthPlain();
    assert Decimal(5) == "5";
    hide BreakFree, AfterSends, ReadsBody, PrintHead, Decimal;
    SendsFrameExactly("HTTP/1.0", "200", "OK", [(CONTENT_LENGTH, "3")], [], "hello");
    assert [] + ["hello"] == ["hello"];
  }
}
