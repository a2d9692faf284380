/**
 What the parser's tables say in the states of an HTTP request.

 The method, query, fragment and header states are transcribed as rows; `Delta` gives the same transitions as
 decisions on the byte, and goes on over the other states of the request line. Inside an address literal
 ("[...]") and on the two socket message formats only the shape of the transitions is fixed.
 */
module RequestTable {
  import opened TableSearch
  import opened ParserEngine

  const STATES: nat := 350
  const SOCKET_FINAL: nat := 349

  const URI_CONDS: seq<(int, int)> := [(94, 94), (123, 123), (125, 125)]
  const FAIL: Edge := Edge(ERROR, [])

  function To(s: nat): Edge {
    Edge(s, [])
  }

  // ---- Rows as the tables hold them ----

  function MethodRow(s: nat): Row {
    if s == 1 then
      Row([], [], [60, 64], [(48, 57), (65, 90)],
          [Edge(194, [MARK]), Edge(198, [MARK]), Edge(2, [MARK]), Edge(2, [MARK]), FAIL])
    else if s == 193 then
      Row([], [], [32], [], [Edge(3, [METHOD]), FAIL])
    else
      var next := if s == 2 then 175 else s + 1;
      Row([], [], [32], [(48, 57), (65, 90)], [Edge(3, [METHOD]), To(next), To(next), FAIL])
  }

  function HexRow(next: nat): Row {
    Row([], [], [], [(48, 57), (65, 70), (97, 102)], [To(next), To(next), To(next), FAIL])
  }

  function QueryRow(s: nat): Row {
    if s == 29 then
      Row(URI_CONDS, [0, 0, 0], [32, 33, 35, 37, 61, 95, 126, 606, 635, 637], [(36, 59), (63, 90), (97, 122)],
          [Edge(4, [START_QUERY, QUERY, URI]), Edge(30, [START_QUERY]), Edge(20, [START_QUERY, QUERY, URI]),
           Edge(31, [START_QUERY]), Edge(30, [START_QUERY]), Edge(30, [START_QUERY]), Edge(30, [START_QUERY]),
           Edge(30, [START_QUERY]), Edge(30, [START_QUERY]), Edge(30, [START_QUERY]), Edge(30, [START_QUERY]),
           Edge(30, [START_QUERY]), Edge(30, [START_QUERY]), FAIL])
    else if s == 30 then
      Row(URI_CONDS, [0, 0, 0], [32, 33, 35, 37, 61, 95, 126, 606, 635, 637], [(36, 59), (63, 90), (97, 122)],
          [Edge(4, [QUERY, URI]), To(30), Edge(20, [QUERY, URI]), To(31), To(30), To(30), To(30), To(30), To(30),
           To(30), To(30), To(30), To(30), FAIL])
    else
      HexRow(if s == 31 then 32 else 30)
  }

  function FragmentRow(s: nat): Row {
    if s == 20 then
      Row(URI_CONDS, [0, 0, 0], [32, 33, 37, 61, 95, 126, 606, 635, 637], [(36, 59), (63, 90), (97, 122)],
          [Edge(4, [MARK, FRAGMENT]), Edge(21, [MARK]), Edge(22, [MARK]), Edge(21, [MARK]), Edge(21, [MARK]),
           Edge(21, [MARK]), Edge(21, [MARK]), Edge(21, [MARK]), Edge(21, [MARK]), Edge(21, [MARK]),
           Edge(21, [MARK]), Edge(21, [MARK]), FAIL])
    else if s == 21 then
      Row(URI_CONDS, [0, 0, 0], [32, 33, 37, 61, 95, 126, 606, 635, 637], [(36, 59), (63, 90), (97, 122)],
          [Edge(4, [FRAGMENT]), To(21), To(22), To(21), To(21), To(21), To(21), To(21), To(21), To(21), To(21),
           To(21), FAIL])
    else
      HexRow(if s == 22 then 23 else 21)
  }

  function HeaderRow(s: nat): Row {
    if s == 13 then
      Row([], [], [10, 13, 33, 124, 126],
          [(1, 8), (11, 31), (35, 39), (42, 43), (45, 46), (48, 57), (65, 90), (94, 122)],
          [Edge(348, [START_FIELD, DONE]), Edge(18, [START_FIELD]), Edge(14, [START_FIELD]), Edge(14, [START_FIELD]),
           Edge(14, [START_FIELD]), Edge(14, [START_FIELD]), Edge(14, [START_FIELD]), Edge(14, [START_FIELD]),
           Edge(14, [START_FIELD]), Edge(14, [START_FIELD]), Edge(14, [START_FIELD]), Edge(14, [START_FIELD]),
           Edge(14, [START_FIELD]), FAIL])
    else if s == 14 then
      Row([], [], [33, 58, 124, 126],
          [(1, 8), (10, 31), (35, 39), (42, 43), (45, 46), (48, 57), (65, 90), (94, 122)],
          [To(14), Edge(15, [WRITE_FIELD]), To(14), To(14), To(14), To(14), To(14), To(14), To(14), To(14), To(14),
           To(14), FAIL])
    else if s == 15 then
      Row([], [], [0, 9, 10, 13, 32, 127], [],
          [FAIL, Edge(15, [START_VALUE]), Edge(13, [START_VALUE, WRITE_VALUE]), Edge(17, [START_VALUE, WRITE_VALUE]),
           Edge(15, [START_VALUE]), FAIL, Edge(16, [START_VALUE])])
    else if s == 16 then
      Row([], [], [0, 10, 13, 127], [], [FAIL, Edge(13, [WRITE_VALUE]), Edge(17, [WRITE_VALUE]), FAIL, To(16)])
    else if s == 17 then
      Row([], [], [10], [], [To(13), FAIL])
    else
      Row([], [], [10, 33, 58, 124, 126],
          [(1, 8), (11, 31), (35, 39), (42, 43), (45, 46), (48, 57), (65, 90), (94, 122)],
          [Edge(348, [DONE]), To(14), Edge(15, [WRITE_FIELD]), To(14), To(14), To(14), To(14), To(14), To(14), To(14),
           To(14), To(14), To(14), FAIL])
  }

  // ---- The same transitions as decisions on the byte ----

  predicate MethodByte(c: int) {
    48 <= c <= 57 || 65 <= c <= 90
  }

  predicate Letter(c: int) {
    65 <= c <= 90 || 97 <= c <= 122
  }

  predicate SchemeByte(c: int) {
    Letter(c) || 48 <= c <= 57 || c == 43 || c == 45 || c == 46
  }

  predicate HexByte(c: int) {
    48 <= c <= 57 || 65 <= c <= 70 || 97 <= c <= 102
  }

  /** Unreserved characters and sub-delimiters, with ':' and '/'; "^{}" join them when the flag is on. */
  predicate UriByte(c: int, relaxed: bool) {
    || c == 33 || 36 <= c <= 36 || 38 <= c <= 59 || c == 61 || Letter(c) || c == 95 || c == 126
    || (relaxed && (c == 94 || c == 123 || c == 125))
  }

  /** A header name byte. Control bytes other than NUL and DEL count as name bytes; HT does not. */
  predicate TokenByte(c: int) {
    || 1 <= c <= 8 || 10 <= c <= 31 || c == 33 || 35 <= c <= 39 || 42 <= c <= 43 || 45 <= c <= 46
    || 48 <= c <= 57 || 65 <= c <= 90 || 94 <= c <= 122 || c == 124 || c == 126
  }

  function MethodDelta(s: nat, c: int): Edge {
    if s == 1 then
      if c == 60 then Edge(194, [MARK]) else if c == 64 then Edge(198, [MARK])
      else if MethodByte(c) then Edge(2, [MARK]) else FAIL
    else if c == 32 then Edge(3, [METHOD])
    else if s != 193 && MethodByte(c) then To(if s == 2 then 175 else s + 1)
    else FAIL
  }

  /** The start of the path, or its second start behind a scheme. */
  function StartDelta(s: nat, c: int, relaxed: bool): Edge {
    if c == 32 then Edge(4, [MARK, PATH, URI])
    else if c == 35 then Edge(20, [MARK, PATH, URI])
    else if c == 63 then Edge(29, [MARK, PATH])
    else if c == 47 then Edge(33, [MARK])
    else if c == 37 then Edge(if s == 3 then 24 else 27, [MARK])
    else if s == 3 && Letter(c) then Edge(173, [MARK])
    else if (UriByte(c, relaxed) && (c == 58 ==> s == 174)) || c == 64 then Edge(if s == 3 then 19 else 26, [MARK])
    else FAIL
  }

  function HexNext(s: nat): nat {
    if s == 25 then 19 else if s == 28 then 26 else if s == 32 then 30 else if s == 37 then 35
    else if s == 41 then 39 else if s == 45 then 43 else if s == 23 then 21 else s + 1
  }

  predicate HexState(s: nat) {
    s in {22, 23, 24, 25, 27, 28, 31, 32, 36, 37, 40, 41, 44, 45}
  }

  function PathDelta(s: nat, c: int, relaxed: bool): Edge {
    if HexState(s) then if HexByte(c) then To(HexNext(s)) else FAIL
    else if s == 39 then
      if c == 37 then To(40) else if c == 64 then To(42)
      else if UriByte(c, relaxed) && c != 47 then To(39) else FAIL
    else if c == 32 then Edge(4, [PATH, URI])
    else if c == 35 then Edge(20, [PATH, URI])
    else if c == 63 then Edge(29, [PATH])
    else if s == 46 then if c == 47 then To(26) else if 48 <= c <= 57 then To(46) else FAIL
    else if s == 61 then if c == 47 then To(26) else if c == 58 then To(46) else FAIL
    else if c == 37 then To(if s == 19 || s == 173 then 24 else if s == 26 || s == 33 then 27
                            else if s == 34 || s == 35 then 36 else if s == 38 then 40 else 44)
    else if c == 47 then To(if s == 33 then 34 else 26)
    else if s == 173 then
      if c == 58 then To(174) else if SchemeByte(c) then To(173)
      else if UriByte(c, relaxed) || c == 64 then To(19) else FAIL
    else if s == 19 then if (UriByte(c, relaxed) && c != 58) || c == 64 then To(19) else FAIL
    else if s == 26 || s == 33 then if UriByte(c, relaxed) || c == 64 then To(26) else FAIL
    else if s == 38 then
      if c == 64 then To(42) else if 48 <= c <= 57 then To(38) else if UriByte(c, relaxed) then To(39) else FAIL
    else if s == 34 || s == 35 then
      if c == 58 then To(38) else if c == 64 then To(42) else if s == 34 && c == 91 then To(47)
      else if UriByte(c, relaxed) then To(35) else FAIL
    else
      if c == 58 then To(46) else if s == 42 && c == 91 then To(47)
      else if UriByte(c, relaxed) then To(43) else FAIL
  }

  function QueryDelta(s: nat, c: int, relaxed: bool): Edge {
    if HexState(s) then if HexByte(c) then To(HexNext(s)) else FAIL
    else
      var start := if s == 29 then [START_QUERY] else [];
      if c == 32 then Edge(4, start + [QUERY, URI])
      else if c == 35 then Edge(20, start + [QUERY, URI])
      else if c == 37 then Edge(31, start)
      else if UriByte(c, relaxed) || c == 63 || c == 64 then Edge(30, start)
      else FAIL
  }

  function FragmentDelta(s: nat, c: int, relaxed: bool): Edge {
    if HexState(s) then if HexByte(c) then To(HexNext(s)) else FAIL
    else
      var start := if s == 20 then [MARK] else [];
      if c == 32 then Edge(4, start + [FRAGMENT])
      else if c == 37 then Edge(22, start)
      else if UriByte(c, relaxed) || c == 63 || c == 64 then Edge(21, start)
      else FAIL
  }

  const VERSION_TEXT: string := "HTTP/1."

  function VersionDelta(s: nat, c: int): Edge
    requires 4 <= s <= 12
  {
    if s == 12 then
      if c == 10 then Edge(13, [VERSION]) else if c == 13 then Edge(17, [VERSION]) else FAIL
    else if s == 11 then if 48 <= c <= 49 then To(12) else FAIL
    else if c == VERSION_TEXT[s - 4] as int then Edge(s + 1, if s == 4 then [MARK] else [])
    else FAIL
  }

  function HeaderDelta(s: nat, c: int): Edge {
    if s == 13 then
      if c == 10 then Edge(348, [START_FIELD, DONE]) else if c == 13 then Edge(18, [START_FIELD])
      else if TokenByte(c) then Edge(14, [START_FIELD]) else FAIL
    else if s == 14 || s == 18 then
      if s == 18 && c == 10 then Edge(348, [DONE])
      else if c == 58 then Edge(15, [WRITE_FIELD]) else if TokenByte(c) then To(14) else FAIL
    else if s == 15 then
      if c == 9 || c == 32 then Edge(15, [START_VALUE])
      else if c == 10 then Edge(13, [START_VALUE, WRITE_VALUE])
      else if c == 13 then Edge(17, [START_VALUE, WRITE_VALUE])
      else if c == 0 || c == 127 then FAIL else Edge(16, [START_VALUE])
    else if s == 16 then
      if c == 10 then Edge(13, [WRITE_VALUE]) else if c == 13 then Edge(17, [WRITE_VALUE])
      else if c == 0 || c == 127 then FAIL else To(16)
    else
      if c == 10 then To(13) else FAIL
  }

  // ---- Which states are which ----

  predicate MethodState(s: nat) {
    1 <= s <= 2 || 175 <= s <= 193
  }

  predicate StartState(s: nat) {
    s == 3 || s == 174
  }

  predicate LiteralState(s: nat) {
    47 <= s <= 60 || 62 <= s <= 172
  }

  /** States in which the path goes on: the path proper, the scheme, the authority and address literals. */
  predicate PathState(s: nat) {
    s == 19 || 24 <= s <= 28 || 33 <= s <= 173
  }

  predicate QueryState(s: nat) {
    29 <= s <= 32
  }

  predicate FragmentState(s: nat) {
    20 <= s <= 23
  }

  predicate VersionState(s: nat) {
    4 <= s <= 12
  }

  predicate HeaderState(s: nat) {
    13 <= s <= 18
  }

  predicate SocketState(s: nat) {
    194 <= s <= 347
  }

  function Delta(s: nat, c: int, relaxed: bool): Edge {
    if MethodState(s) then MethodDelta(s, c)
    else if StartState(s) then StartDelta(s, c, relaxed)
    else if QueryState(s) then QueryDelta(s, c, relaxed)
    else if FragmentState(s) then FragmentDelta(s, c, relaxed)
    else if VersionState(s) then VersionDelta(s, c)
    else if HeaderState(s) then HeaderDelta(s, c)
    else PathDelta(s, c, relaxed)
  }

  /** Inside an address literal no action fires, and the way out is the state behind "]". */
  predicate LiteralEdge(c: int, e: Edge) {
    e == FAIL || (e.actions == [] && 47 <= e.target <= 172 && c !in [0, 10, 13, 32, 35, 63])
  }

  /** The socket formats report a path, mark their text, and end in their own final state. */
  predicate SocketEdge(e: Edge) {
    || e == FAIL
    || (SocketState(e.target) && (e.actions == [] || e.actions == [MARK] || e.actions == [PATH]))
    || e == Edge(SOCKET_FINAL, [XML, DONE]) || e == Edge(SOCKET_FINAL, [JSON, DONE])
  }

  predicate Transcribed(s: nat) {
    MethodState(s) || QueryState(s) || FragmentState(s) || HeaderState(s)
  }

  function TranscribedRow(s: nat): Row {
    if MethodState(s) then MethodRow(s) else if QueryState(s) then QueryRow(s)
    else if FragmentState(s) then FragmentRow(s) else HeaderRow(s)
  }

  predicate Decoded(s: nat) {
    StartState(s) || VersionState(s) || (PathState(s) && !LiteralState(s))
  }

  /** Each state is of one kind: known byte by byte, inside an address literal, of a socket message, error or final. */
  lemma StateKinds(s: nat)
    requires s < 350
    ensures Transcribed(s) || Decoded(s) <==> 1 <= s <= 46 || s == 61 || 173 <= s <= 193
    ensures LiteralState(s) <==> 47 <= s <= 172 && s != 61
    ensures SocketState(s) <==> 194 <= s <= 347
    ensures s == ERROR || s == FIRST_FINAL || s == SOCKET_FINAL <==> s == 0 || s == 348 || s == 349
  {
  }

  /**
   The tables of the generated parser, `http11_parser(todo).c`. Where each conjunct is read off:
   - `WellFormed` and `States(t) == STATES`: cond_offsets, cond_lengths, key_offsets, single_lengths, range_lengths
     and index_offsets (lines 60-95, 118-149, 313-379) have one entry a state; indicies (380-512) hold numbers of
     transitions, trans_targs (513-540) numbers of states, trans_actions (541-560) offsets into actions (55-58).
   - Rows: state s has its conditions at cond_offsets[s] (60-116), its keys, singles before ranges, at
     key_offsets[s] in trans_keys (150-312), and its transitions, the default last, at index_offsets[s] in
     indicies. State 1: keys 60, 64, 48-57, 65-90 (151) and transitions 2, 3, 0, 0, 1 (381), that is, targets 194,
     198, 2, 2, 0 (514) with actions 1, 1, 1, 1, 0 (542), offset 1 in actions being the list of `MARK` alone.
   - `Decoded` states: such rows again, read on every byte as decisions; the state sets name the rows.
   - Literal and socket states: of their rows only the targets and actions of all transitions but the default,
     for literals also that no key or interval holds one of the six bytes.
   */
  ghost predicate IsRequestTable(t: Tables) {
    && WellFormed(t) && States(t) == STATES
    && (forall s :: 0 <= s < STATES && Transcribed(s) ==> RowOf(t, s) == TranscribedRow(s))
    && (forall s, c: char, relaxed :: 0 <= s < STATES && Decoded(s) && c as int < 256
          ==> Taken(t, relaxed, s, c) == Delta(s, Signed(c), relaxed))
    && (forall s, c: char, relaxed :: 0 <= s < STATES && LiteralState(s) && c as int < 256
          ==> LiteralEdge(Signed(c), Taken(t, relaxed, s, c)))
    && (forall s, c: char, relaxed :: 0 <= s < STATES && SocketState(s) && c as int < 256
          ==> SocketEdge(Taken(t, relaxed, s, c)))
  }

  // ---- The transcribed rows decode to `Delta` ----

  lemma MethodRowDecodes(s: nat, c: int, relaxed: bool)
    requires MethodState(s)
    ensures TakeByte(MethodRow(s), c, relaxed) == MethodDelta(s, c)
  {
  }

  lemma HexRowDecodes(next: nat, c: int, relaxed: bool)
    ensures TakeByte(HexRow(next), c, relaxed) == if HexByte(c) then To(next) else FAIL
  {
  }

  /** Query and fragment rows before widening: "^{}" have keys of their own, 512 higher. */
  predicate TextKey(w: int) {
    UriByte(w, false) || w == 63 || w == 64 || w == 606 || w == 635 || w == 637
  }

  lemma Row29Picks(w: int)
    ensures Pick(QueryRow(29), w) ==
            if w == 32 then Edge(4, [START_QUERY, QUERY, URI]) else if w == 35 then Edge(20, [START_QUERY, QUERY, URI])
            else if w == 37 then Edge(31, [START_QUERY]) else if TextKey(w) then Edge(30, [START_QUERY]) else FAIL
  {
  }

  lemma Row30Picks(w: int)
    ensures Pick(QueryRow(30), w) ==
            if w == 32 then Edge(4, [QUERY, URI]) else if w == 35 then Edge(20, [QUERY, URI])
            else if w == 37 then To(31) else if TextKey(w) then To(30) else FAIL
  {
  }

  lemma Row20Picks(w: int)
    ensures Pick(FragmentRow(20), w) ==
            if w == 32 then Edge(4, [MARK, FRAGMENT]) else if w == 37 then Edge(22, [MARK])
            else if TextKey(w) then Edge(21, [MARK]) else FAIL
  {
  }

  lemma Row21Picks(w: int)
    ensures Pick(FragmentRow(21), w) ==
            if w == 32 then Edge(4, [FRAGMENT]) else if w == 37 then To(22) else if TextKey(w) then To(21) else FAIL
  {
  }

  lemma UriWiden(row: Row, c: int, relaxed: bool)
    requires row.conds == URI_CONDS && row.spaces == [0, 0, 0]
    ensures Widen(row, c, relaxed) == if c == 94 || c == 123 || c == 125 then Widened(c, relaxed) else c
  {
    assert PairIndex(URI_CONDS, c, 0) == if c == 94 then 0 else if c == 123 then 1 else if c == 125 then 2 else 3;
  }

  /** Condition widening and the high keys together say "only when relaxed". */
  lemma QueryTextDecodes(s: nat, c: int, relaxed: bool)
    requires (s == 29 || s == 30) && -128 <= c < 128
    ensures TakeByte(QueryRow(s), c, relaxed) == QueryDelta(s, c, relaxed)
  {
    hide Pick, Widen;
    UriWiden(QueryRow(s), c, relaxed);
    var w := Widen(QueryRow(s), c, relaxed);
    assert TextKey(w) <==> UriByte(c, relaxed) || c == 63 || c == 64;
    if s == 29 {
      Row29Picks(w);
    } else {
      Row30Picks(w);
    }
  }

  lemma FragmentTextDecodes(s: nat, c: int, relaxed: bool)
    requires (s == 20 || s == 21) && -128 <= c < 128
    ensures TakeByte(FragmentRow(s), c, relaxed) == FragmentDelta(s, c, relaxed)
  {
    hide Pick, Widen;
    UriWiden(FragmentRow(s), c, relaxed);
    var w := Widen(FragmentRow(s), c, relaxed);
    assert TextKey(w) <==> UriByte(c, relaxed) || c == 63 || c == 64;
    if s == 20 {
      Row20Picks(w);
    } else {
      Row21Picks(w);
    }
  }

  lemma NameRowsDecode(c: int, relaxed: bool)
    ensures TakeByte(HeaderRow(14), c, relaxed) == HeaderDelta(14, c)
  {
  }

  lemma LineRowDecodes(c: int, relaxed: bool)
    ensures TakeByte(HeaderRow(13), c, relaxed) == HeaderDelta(13, c)
  {
  }

  lemma CrRowDecodes(c: int, relaxed: bool)
    ensures TakeByte(HeaderRow(18), c, relaxed) == HeaderDelta(18, c)
  {
  }

  lemma ValueRowsDecode(s: nat, c: int, relaxed: bool)
    requires 15 <= s <= 17
    ensures TakeByte(HeaderRow(s), c, relaxed) == HeaderDelta(s, c)
  {
    if s == 15 {
    } else if s == 16 {
    } else {
    }
  }

  /** In every known state the tables do what `Delta` says, on every byte. */
  lemma TakenIsDelta(t: Tables, relaxed: bool, s: nat, c: char)
    requires IsRequestTable(t) && c as int < 256
    requires s < STATES && (Transcribed(s) || Decoded(s))
    ensures Taken(t, relaxed, s, c) == Delta(s, Signed(c), relaxed)
  {
    var b := Signed(c);
    if Transcribed(s) {
      assert RowOf(t, s) == TranscribedRow(s);
      if MethodState(s) {
        MethodRowDecodes(s, b, relaxed);
      } else if s == 29 || s == 30 {
        QueryTextDecodes(s, b, relaxed);
      } else if s == 20 || s == 21 {
        FragmentTextDecodes(s, b, relaxed);
      } else if HeaderState(s) {
        HeaderRowDecodes(s, b, relaxed);
      } else {
        HexRowDecodes(HexNext(s), b, relaxed);
      }
    }
  }

  lemma HeaderRowDecodes(s: nat, c: int, relaxed: bool)
    requires HeaderState(s)
    ensures TakeByte(HeaderRow(s), c, relaxed) == HeaderDelta(s, c)
  {
    if s == 13 {
      LineRowDecodes(c, relaxed);
    } else if s == 14 {
      NameRowsDecode(c, relaxed);
    } else if s == 18 {
      CrRowDecodes(c, relaxed);
    } else {
      ValueRowsDecode(s, c, relaxed);
    }
  }
}
