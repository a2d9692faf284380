/**
 The text of a request, and the callbacks it makes.

 A `View` says where the parts of a request lie in the buffer; `HeadText` and `PartsText` say which bytes stand
 there, and `HeadCalls` and `PartCalls` which callbacks report them.
 */
module RequestText {
  import opened Prelude
  import opened ParserEngine
  import opened RequestTable

  datatype Head = Head(methodLen: nat, uriStart: nat, pathLen: nat, query: Option<nat>, fragment: Option<nat>)
  datatype Part = Part(nameStart: nat, nameLen: nat, valueStart: nat, valueLen: nat)
  datatype View = View(head: Head, parts: seq<Part>)

  // ---- Where the parts end ----

  function PathEnd(h: Head): nat {
    h.uriStart + h.pathLen
  }

  function UriEnd(h: Head): nat {
    PathEnd(h) + if h.query.Some? then 1 + h.query.value else 0
  }

  function TargetEnd(h: Head): nat {
    UriEnd(h) + if h.fragment.Some? then 1 + h.fragment.value else 0
  }

  const VERSION_LEN: nat := 8

  function VersionEnd(h: Head): nat {
    TargetEnd(h) + 1 + VERSION_LEN
  }

  function ValueEnd(f: Part): nat {
    f.valueStart + f.valueLen
  }

  /** The end of the last line's content: of the line that ends at `from`, or of the latest value. */
  function PartsEnd(from: nat, parts: seq<Part>): nat {
    if parts == [] then from else ValueEnd(parts[|parts| - 1])
  }

  // ---- The callbacks of a view ----

  function MethodCalls(h: Head): seq<Call> {
    [Element(METHOD, 0, h.methodLen)]
  }

  function PathCalls(h: Head): seq<Call> {
    MethodCalls(h) + [Element(PATH, h.uriStart, h.pathLen)]
  }

  function UriCalls(h: Head): seq<Call> {
    PathCalls(h) + (if h.query.Some? then [Element(QUERY, PathEnd(h) + 1, h.query.value)] else [])
    + [Element(URI, h.uriStart, UriEnd(h) - h.uriStart)]
  }

  function TargetCalls(h: Head): seq<Call> {
    UriCalls(h) + if h.fragment.Some? then [Element(FRAGMENT, UriEnd(h) + 1, h.fragment.value)] else []
  }

  function HeadCalls(h: Head): seq<Call> {
    TargetCalls(h) + [Element(VERSION, TargetEnd(h) + 1, VERSION_LEN)]
  }

  function PartCall(f: Part): Call {
    Field(f.nameStart, f.nameLen, f.valueStart, f.valueLen)
  }

  function PartCalls(parts: seq<Part>): (r: seq<Call>)
    ensures |r| == |parts|
    ensures forall k :: 0 <= k < |parts| ==> r[k] == PartCall(parts[k])
  {
    if parts == [] then [] else PartCalls(parts[..|parts| - 1]) + [PartCall(parts[|parts| - 1])]
  }

  // ---- The text of a view ----

  ghost predicate MethodText(buf: string, n: nat) {
    && 1 <= n <= 20 && n < |buf| && buf[n] == ' '
    && forall i :: 0 <= i < n ==> MethodByte(Signed(buf[i]))
  }

  ghost predicate SchemeText(buf: string, from: nat, to: nat) {
    && from < to <= |buf| && Letter(Signed(buf[from]))
    && forall i :: from <= i < to ==> SchemeByte(Signed(buf[i]))
  }

  /** The path starts behind the method's space, or behind a scheme and its colon. */
  ghost predicate StartText(buf: string, h: Head) {
    && MethodText(buf, h.methodLen)
    && (h.uriStart == h.methodLen + 1 ||
        (h.methodLen + 2 < h.uriStart <= |buf| && buf[h.uriStart - 1] == ':'
         && SchemeText(buf, h.methodLen + 1, h.uriStart - 1)))
  }

  const PATH_ENDS: string := " ?#\r\n\0"
  const TEXT_ENDS: string := " #\r\n\0"

  /** No character of a slice ends the kind of text it holds. */
  ghost predicate Without(buf: string, from: nat, to: nat, ends: string) {
    from <= to <= |buf| && forall i :: from <= i < to ==> buf[i] !in ends
  }

  // ---- Readable text ----

  /** A byte that path, query or fragment text holds as it is; '?' does not belong to paths. */
  predicate TextByte(c: int, question: bool, relaxed: bool) {
    UriByte(c, relaxed) || c == 64 || (question && c == 63)
  }

  predicate HexChar(c: char) {
    HexByte(Signed(c))
  }

  /** Text bytes and complete percent escapes. */
  ghost predicate Readable(buf: string, from: nat, end: nat, question: bool, relaxed: bool)
    decreases end
  {
    && from <= end <= |buf|
    && (|| from == end
        || (TextByte(Signed(buf[end - 1]), question, relaxed) && Readable(buf, from, end - 1, question, relaxed))
        || (from + 3 <= end && buf[end - 3] == '%' && HexChar(buf[end - 2]) && HexChar(buf[end - 1])
            && Readable(buf, from, end - 3, question, relaxed)))
  }

  /** Readable text, with `k` bytes of an escape behind it. */
  ghost predicate Reading(k: nat, buf: string, from: nat, p: nat, question: bool, relaxed: bool) {
    && p <= |buf|
    && if k == 0 then Readable(buf, from, p, question, relaxed)
       else if k == 1 then from < p && buf[p - 1] == '%' && Readable(buf, from, p - 1, question, relaxed)
       else from + 2 <= p && buf[p - 2] == '%' && HexChar(buf[p - 1]) && Readable(buf, from, p - 2, question, relaxed)
  }

  /** How many bytes of an escape a state is behind. */
  function Phase(s: nat): nat {
    if s in {22, 24, 27, 31, 36, 40, 44} then 1 else if s in {23, 25, 28, 32, 37, 41, 45} then 2 else 0
  }

  predicate PhaseStep(k: nat, c: int, k': nat, question: bool, relaxed: bool) {
    || (k == 0 && k' == 0 && TextByte(c, question, relaxed)) || (k == 0 && k' == 1 && c == 37)
    || (k == 1 && k' == 2 && HexByte(c)) || (k == 2 && k' == 0 && HexByte(c))
  }

  lemma ReadingGoesOn(k: nat, k': nat, buf: string, from: nat, p: nat, question: bool, relaxed: bool)
    requires p < |buf| && Bytes(buf) && Reading(k, buf, from, p, question, relaxed)
    requires PhaseStep(k, Signed(buf[p]), k', question, relaxed)
    ensures Reading(k', buf, from, p + 1, question, relaxed)
  {
    hide UriByte, HexByte;
  }

  lemma ReadingBegins(buf: string, p: nat, question: bool, relaxed: bool)
    requires p <= |buf|
    ensures Reading(0, buf, p, p, question, relaxed)
  {
  }

  /** A bracket, which only address literals bring into a path. */
  ghost predicate Bracketed(buf: string, from: nat, to: nat) {
    exists i :: from <= i < to && i < |buf| && buf[i] == '['
  }

  // ---- The request line ----

  ghost predicate PathText(buf: string, h: Head, relaxed: bool) {
    && StartText(buf, h) && Without(buf, h.uriStart, PathEnd(h), PATH_ENDS)
    && (Bracketed(buf, h.uriStart, PathEnd(h)) || Readable(buf, h.uriStart, PathEnd(h), false, relaxed))
  }

  ghost predicate UriText(buf: string, h: Head, relaxed: bool) {
    && PathText(buf, h, relaxed)
    && (h.query.Some? ==>
          && PathEnd(h) < |buf| && buf[PathEnd(h)] == '?' && Without(buf, PathEnd(h) + 1, UriEnd(h), TEXT_ENDS)
          && Readable(buf, PathEnd(h) + 1, UriEnd(h), true, relaxed))
  }

  ghost predicate TargetText(buf: string, h: Head, relaxed: bool) {
    && UriText(buf, h, relaxed)
    && (h.fragment.Some? ==>
          && UriEnd(h) < |buf| && buf[UriEnd(h)] == '#' && Without(buf, UriEnd(h) + 1, TargetEnd(h), TEXT_ENDS)
          && Readable(buf, UriEnd(h) + 1, TargetEnd(h), true, relaxed))
  }

  ghost predicate HeadText(buf: string, h: Head, relaxed: bool) {
    && TargetText(buf, h, relaxed) && VersionEnd(h) <= |buf| && buf[TargetEnd(h)] == ' '
    && buf[TargetEnd(h) + 1..VersionEnd(h) - 1] == VERSION_TEXT
    && (buf[VersionEnd(h) - 1] == '0' || buf[VersionEnd(h) - 1] == '1')
  }

  ghost predicate NameText(buf: string, from: nat, to: nat) {
    from <= to <= |buf| && forall i :: from <= i < to ==> TokenByte(Signed(buf[i]))
  }

  ghost predicate Blanks(buf: string, from: nat, to: nat) {
    from <= to <= |buf| && forall i :: from <= i < to ==> buf[i] == ' ' || buf[i] == '\t'
  }

  predicate ValueChar(c: char) {
    c != '\0' && c != '\n' && c != '\r' && c as int != 127
  }

  ghost predicate ValueText(buf: string, from: nat, to: nat) {
    && from <= to <= |buf|
    && (forall i :: from <= i < to ==> ValueChar(buf[i]))
    && (from < to ==> buf[from] != ' ' && buf[from] != '\t')
  }

  /** A header's name ends at its colon, and only blanks lie between the colon and the value. */
  ghost predicate PartText(buf: string, f: Part) {
    var colon := f.nameStart + f.nameLen;
    && f.nameLen > 0 && NameText(buf, f.nameStart, colon)
    && colon < f.valueStart && colon < |buf| && buf[colon] == ':'
    && Blanks(buf, colon + 1, f.valueStart)
    && ValueText(buf, f.valueStart, ValueEnd(f))
  }

  /** A line break between `from` and `to`: LF, or CR LF. */
  ghost predicate LineBreak(buf: string, from: nat, to: nat) {
    && to <= |buf|
    && ((to == from + 1 && buf[from] == '\n') || (to == from + 2 && buf[from] == '\r' && buf[from + 1] == '\n'))
  }

  /** Header lines one after the other, the first behind the line that ends at `from`. */
  ghost predicate PartsText(buf: string, from: nat, parts: seq<Part>) {
    parts == [] ||
    (var rest, f := parts[..|parts| - 1], parts[|parts| - 1];
     PartsText(buf, from, rest) && LineBreak(buf, PartsEnd(from, rest), f.nameStart) && PartText(buf, f))
  }
}
