/**
 Paths that the incremental parser accepts, address literals aside.

 `PathForm` is the grammar: behind two slashes an authority (a user and "@" or not, a name, a port or not), and
 without a scheme no colon in front of the first slash. `PathAt` says which state a text of that kind ends in; a run
 over any readable text gets there, or dies if there is none.
 */
module RequestPaths {
  import opened Prelude
  import opened TableSearch
  import opened ParserEngine
  import opened RequestTable
  import opened RequestText
  import opened RequestRuns

  // ---- One byte ----

  /** Up to three actions, none of them done. */
  function Fired(g: Regs, codes: seq<nat>, p: nat): Regs
    requires |codes| <= 3
  {
    if |codes| == 0 then g
    else if |codes| == 1 then Act(g, codes[0], p)
    else if |codes| == 2 then Act(Act(g, codes[0], p), codes[1], p)
    else Act(Act(Act(g, codes[0], p), codes[1], p), codes[2], p)
  }

  predicate Known(s: nat) {
    s < STATES && (Transcribed(s) || Decoded(s))
  }

  lemma Goes(t: Tables, relaxed: bool, cs: nat, g: Regs, buf: string, p: nat, e: Edge)
    requires IsRequestTable(t) && Bytes(buf) && p < |buf| && Known(cs)
    requires e == Delta(cs, Signed(buf[p]), relaxed)
    requires e.target != ERROR && |e.actions| <= 3 && DONE !in e.actions
    ensures e.target < STATES
    ensures Run(t, relaxed, cs, g, buf, p) == Run(t, relaxed, e.target, Fired(g, e.actions, p), buf, p + 1)
  {
    assert cs != ERROR && cs < States(t);
    TakenIsDelta(t, relaxed, cs, buf[p]);
    hide Delta, Taken, Act, Acts;
    RunStep(t, relaxed, cs, g, buf, p);
    ActsShort(g, e.actions, p, |buf|);
  }

  /** A byte without a transition ends the run in error. */
  lemma Dies(t: Tables, relaxed: bool, cs: nat, g: Regs, buf: string, p: nat)
    requires IsRequestTable(t) && Bytes(buf) && p < |buf| && Known(cs)
    requires Delta(cs, Signed(buf[p]), relaxed) == FAIL
    ensures Run(t, relaxed, cs, g, buf, p).cs == ERROR
  {
    assert cs != ERROR && cs < States(t);
    TakenIsDelta(t, relaxed, cs, buf[p]);
    hide Delta, Taken;
    RunStep(t, relaxed, cs, g, buf, p);
  }

  /** The states of a request line, address literals aside. */
  lemma LineStatesKnown(s: nat)
    requires 1 <= s <= 46 || s == 173 || s == 174 || 175 <= s <= 193
    ensures Known(s)
  {
  }

  // ---- The grammar of paths ----

  /** The first place of a character in a slice, or the slice's end. */
  function FirstAt(buf: string, c: char, p: nat, to: nat): (r: nat)
    requires p <= to <= |buf|
    ensures p <= r <= to && (r < to ==> buf[r] == c)
    ensures forall i :: p <= i < r ==> buf[i] != c
    decreases |buf| - p
  {
    if p == to || buf[p] == c then p else FirstAt(buf, c, p + 1, to)
  }

  lemma FirstAtMore(buf: string, c: char, p: nat, to: nat, more: nat)
    requires p <= to <= more <= |buf|
    ensures var r := FirstAt(buf, c, p, to);
      FirstAt(buf, c, p, more) == if r < to then r else FirstAt(buf, c, to, more)
  {
    var r, m := FirstAt(buf, c, p, to), FirstAt(buf, c, p, more);
    hide FirstAt;
    assert r < to ==> m <= r;
    assert m < to ==> buf[m] == c;
  }

  ghost predicate Digits(buf: string, p: nat, to: nat) {
    p <= to <= |buf| && forall i :: p <= i < to ==> '0' <= buf[i] <= '9'
  }

  /** A name, and a colon and a port or not. */
  ghost predicate HostForm(buf: string, p: nat, a: nat)
    requires p <= a <= |buf|
  {
    && FirstAt(buf, '@', p, a) == a
    && (var colon := FirstAt(buf, ':', p, a); colon < a ==> Digits(buf, colon + 1, a))
  }

  /** A user, which may hold colons, and "@", or not; then a host. */
  ghost predicate AuthorityForm(buf: string, p: nat, a: nat)
    requires p <= a <= |buf|
  {
    var at := FirstAt(buf, '@', p, a);
    HostForm(buf, if at < a then at + 1 else p, a)
  }

  predicate Hosted(buf: string, from: nat, to: nat) {
    from + 2 <= to <= |buf| && buf[from] == '/' && buf[from + 1] == '/'
  }

  /** A colon in front of the first slash. */
  predicate ColonFirst(buf: string, from: nat, to: nat)
    requires from <= to <= |buf|
  {
    FirstAt(buf, ':', from, to) < FirstAt(buf, '/', from, to)
  }

  ghost predicate PathForm(buf: string, from: nat, to: nat, schemed: bool)
    requires from <= to <= |buf|
  {
    if Hosted(buf, from, to) then AuthorityForm(buf, from + 2, FirstAt(buf, '/', from + 2, to))
    else schemed || !ColonFirst(buf, from, to)
  }

  // ---- The state a text ends in ----

  /** Behind a host without a user, or with one. 39 is behind what is a user still waiting for its "@". */
  ghost function HostAt(buf: string, p: nat, a: nat, user: bool): nat
    requires p <= a <= |buf|
  {
    var colon := FirstAt(buf, ':', p, a);
    if colon < a then
      if Digits(buf, colon + 1, a) then if user then 46 else 38 else if user then ERROR else 39
    else if p == a then if user then 42 else 34
    else if user then 43 else 35
  }

  ghost function AuthorityAt(buf: string, p: nat, a: nat): nat
    requires p <= a <= |buf|
  {
    var at := FirstAt(buf, '@', p, a);
    if at == a then HostAt(buf, p, a, false)
    else if FirstAt(buf, '@', at + 1, a) < a then ERROR
    else HostAt(buf, at + 1, a, true)
  }

  ghost function HostedAt(buf: string, from: nat, to: nat): nat
    requires from + 2 <= to <= |buf|
  {
    var a := FirstAt(buf, '/', from + 2, to);
    var s := AuthorityAt(buf, from + 2, a);
    if a == to then s else if s == 39 || s == ERROR then ERROR else 26
  }

  ghost function RelativeAt(buf: string, from: nat, to: nat): nat
    requires from < to <= |buf|
  {
    if ColonFirst(buf, from, to) then ERROR
    else if FirstAt(buf, '/', from, to) < to then 26
    else if SchemeText(buf, from, to) then 173 else 19
  }

  /** The state behind a readable path, or `ERROR`. */
  ghost function PathAt(buf: string, from: nat, to: nat, schemed: bool): nat
    requires from <= to <= |buf|
  {
    if from == to then if schemed then 174 else 3
    else if buf[from] == '/' then
      if to == from + 1 then 33 else if buf[from + 1] == '/' then HostedAt(buf, from, to) else 26
    else if schemed then 26
    else RelativeAt(buf, from, to)
  }

  lemma AuthorityAtExactly(buf: string, p: nat, a: nat)
    requires p <= a <= |buf|
    ensures AuthorityForm(buf, p, a) <==> AuthorityAt(buf, p, a) !in {39, ERROR}
    ensures AuthorityAt(buf, p, a) in {ERROR, 34, 35, 38, 39, 42, 43, 46}
  {
    hide FirstAt, Digits;
  }

  /** The states a path can end in are those of the grammar. */
  lemma PathAtExactly(buf: string, from: nat, to: nat, schemed: bool)
    requires from <= to <= |buf|
    ensures PathForm(buf, from, to, schemed) <==> PathAt(buf, from, to, schemed) !in {39, ERROR}
    ensures PathAt(buf, from, to, schemed) in {ERROR, 3, 174, 19, 173, 26, 33, 34, 35, 38, 39, 42, 43, 46}
  {
    hide FirstAt, AuthorityForm, AuthorityAt, SchemeText;
    if Hosted(buf, from, to) {
      AuthorityAtExactly(buf, from + 2, FirstAt(buf, '/', from + 2, to));
    } else if from < to && buf[from] == '/' {
      SlashFirst(buf, from, to);
    }
  }

  lemma SlashFirst(buf: string, from: nat, to: nat)
    requires from < to <= |buf| && buf[from] == '/'
    ensures FirstAt(buf, '/', from, to) == from && !ColonFirst(buf, from, to)
  {
  }

  // ---- One more byte of a path ----

  /** The transition into a state, or none. */
  function Into(s: nat, codes: seq<nat>): Edge {
    if s == ERROR then FAIL else Edge(s, codes)
  }

  lemma HostEdges(s: nat, c: int, relaxed: bool)
    requires s in {34, 35, 38, 39, 42, 43, 46} && TextByte(c, false, relaxed)
    ensures c != 47 && (s == 34 || s == 35) ==>
      Delta(s, c, relaxed) == To(if c == 58 then 38 else if c == 64 then 42 else 35)
    ensures c != 47 && (s == 38 || s == 39) ==>
      Delta(s, c, relaxed) == To(if c == 64 then 42 else if s == 38 && 48 <= c <= 57 then 38 else 39)
    ensures c != 47 && (s == 42 || s == 43) ==>
      Delta(s, c, relaxed) == Into(if c == 58 then 46 else if c == 64 then ERROR else 43, [])
    ensures c != 47 && s == 46 ==> Delta(s, c, relaxed) == Into(if 48 <= c <= 57 then 46 else ERROR, [])
    ensures c == 47 ==> Delta(s, c, relaxed) == Into(if s == 39 then ERROR else 26, [])
  {
  }

  lemma OneMore(buf: string, c: char, p: nat, to: nat)
    requires p <= to < |buf|
    ensures var r := FirstAt(buf, c, p, to);
      FirstAt(buf, c, p, to + 1) == if r < to then r else if buf[to] == c then to else to + 1
  {
    FirstAtMore(buf, c, p, to, to + 1);
  }

  /** A byte of a host or user, not the "@" behind a user. */
  lemma HostByte(buf: string, p: nat, a: nat, user: bool, relaxed: bool)
    requires Bytes(buf) && p <= a < |buf| && TextByte(Signed(buf[a]), false, relaxed) && buf[a] != '/' && buf[a] != '@'
    ensures var s, s' := HostAt(buf, p, a, user), HostAt(buf, p, a + 1, user);
      if s == ERROR then s' == ERROR else Delta(s, Signed(buf[a]), relaxed) == Into(s', [])
  {
    var s := HostAt(buf, p, a, user);
    OneMore(buf, ':', p, a);
    hide FirstAt, TextByte;
    if s != ERROR {
      HostEdges(s, Signed(buf[a]), relaxed);
    }
    hide Delta;
    var colon := FirstAt(buf, ':', p, a);
    assert colon < a ==> (Digits(buf, colon + 1, a + 1) <==> Digits(buf, colon + 1, a) && '0' <= buf[a] <= '9');
  }

  lemma HostAtSign(buf: string, p: nat, a: nat, user: bool, relaxed: bool)
    requires p <= a < |buf| && buf[a] == '@' && HostAt(buf, p, a, user) != ERROR
    ensures Delta(HostAt(buf, p, a, user), 64, relaxed) == if user then FAIL else To(42)
  {
    hide FirstAt, Digits;
    HostEdges(HostAt(buf, p, a, user), 64, relaxed);
    hide Delta;
  }

  lemma HostBegins(buf: string, p: nat, user: bool)
    requires p <= |buf|
    ensures HostAt(buf, p, p, user) == if user then 42 else 34
  {
  }

  lemma AuthorityIs(buf: string, p: nat, a: nat, at: nat)
    requires p <= a <= |buf| && at == FirstAt(buf, '@', p, a)
    ensures AuthorityAt(buf, p, a) == if at == a then HostAt(buf, p, a, false)
                                      else if FirstAt(buf, '@', at + 1, a) < a then ERROR
                                      else HostAt(buf, at + 1, a, true)
  {
    hide FirstAt, HostAt;
  }

  /** Where the user of an authority ends, one byte further. */
  lemma AuthorityNext(buf: string, p: nat, a: nat) returns (from: nat, user: bool)
    requires p <= a < |buf|
    ensures p <= from <= a
    ensures (AuthorityAt(buf, p, a) == ERROR && AuthorityAt(buf, p, a + 1) == ERROR)
         || (AuthorityAt(buf, p, a) == HostAt(buf, from, a, user)
             && AuthorityAt(buf, p, a + 1) == if buf[a] != '@' then HostAt(buf, from, a + 1, user)
                                              else if user then ERROR else 42)
  {
    var at := FirstAt(buf, '@', p, a);
    OneMore(buf, '@', p, a);
    user := at < a;
    from := if user then at + 1 else p;
    HostBegins(buf, a + 1, true);
    AuthorityIs(buf, p, a, at);
    AuthorityIs(buf, p, a + 1, FirstAt(buf, '@', p, a + 1));
    if user {
      OneMore(buf, '@', from, a);
    }
    hide HostAt, AuthorityAt;
  }

  /** Without a user what looks like a bad port may still become one. */
  lemma BadPortHasUser(buf: string, p: nat, a: nat, user: bool)
    requires p <= a <= |buf|
    ensures HostAt(buf, p, a, user) == ERROR ==> user
  {
    hide FirstAt, Digits;
  }

  /** A byte of an authority. */
  lemma AuthorityByte(buf: string, p: nat, a: nat, relaxed: bool)
    requires Bytes(buf) && p <= a < |buf| && TextByte(Signed(buf[a]), false, relaxed) && buf[a] != '/'
    ensures var s, s' := AuthorityAt(buf, p, a), AuthorityAt(buf, p, a + 1);
      if s == ERROR then s' == ERROR else Delta(s, Signed(buf[a]), relaxed) == Into(s', [])
  {
    assert buf[a] == '@' ==> Signed(buf[a]) == 64;
    var from, user := AuthorityNext(buf, p, a);
    hide AuthorityAt, HostAt, Delta, TextByte;
    if buf[a] != '@' {
      HostByte(buf, from, a, user, relaxed);
    } else if AuthorityAt(buf, p, a) != ERROR {
      HostAtSign(buf, from, a, user, relaxed);
    } else {
      BadPortHasUser(buf, from, a, user);
    }
  }

  lemma PathEdges(s: nat, c: int, relaxed: bool)
    requires s in {3, 174, 19, 173, 26, 33} && TextByte(c, false, relaxed)
    ensures s == 26 ==> Delta(s, c, relaxed) == To(26)
    ensures s == 33 ==> Delta(s, c, relaxed) == To(if c == 47 then 34 else 26)
    ensures s == 19 ==> Delta(s, c, relaxed) == Into(if c == 47 then 26 else if c == 58 then ERROR else 19, [])
    ensures s == 173 && c != 58 ==>
      Delta(s, c, relaxed) == To(if c == 47 then 26 else if SchemeByte(c) then 173 else 19)
    ensures s == 174 ==> Delta(s, c, relaxed) == Edge(if c == 47 then 33 else 26, [MARK])
    ensures s == 3 && c != 47 && c != 58 ==> Delta(s, c, relaxed) == Edge(if Letter(c) then 173 else 19, [MARK])
    ensures s == 3 && c == 47 ==> Delta(s, c, relaxed) == Edge(33, [MARK])
    ensures s == 3 && c == 58 ==> Delta(s, c, relaxed) == FAIL
  {
  }

  /** What looks like a path holds a scheme in front. */
  ghost predicate Scheming(buf: string, from: nat, to: nat)
    requires from <= to <= |buf|
  {
    ColonFirst(buf, from, to) && SchemeText(buf, from, FirstAt(buf, ':', from, to))
  }

  /** Behind the first slash the authority is over. */
  function Behind(s: nat): nat {
    if s == 39 || s == ERROR then ERROR else 26
  }

  lemma HostedIs(buf: string, from: nat, to: nat, a: nat)
    requires from + 2 <= to <= |buf| && a == FirstAt(buf, '/', from + 2, to)
    ensures var s := AuthorityAt(buf, from + 2, a);
      HostedAt(buf, from, to) == if a == to then s else Behind(s)
  {
    hide FirstAt, AuthorityAt;
  }

  lemma HostedNext(buf: string, from: nat, to: nat, a: nat)
    requires from + 2 <= to < |buf| && a == FirstAt(buf, '/', from + 2, to)
    ensures var s, s' := HostedAt(buf, from, to), HostedAt(buf, from, to + 1);
      if a < to then s' == s == Behind(AuthorityAt(buf, from + 2, a))
      else s == AuthorityAt(buf, from + 2, to)
           && s' == if buf[to] != '/' then AuthorityAt(buf, from + 2, to + 1) else Behind(s)
  {
    hide *;
    OneMore(buf, '/', from + 2, to);
    HostedIs(buf, from, to, a);
    HostedIs(buf, from, to + 1, FirstAt(buf, '/', from + 2, to + 1));
  }

  lemma BehindEdges(s: nat, c: int, relaxed: bool)
    requires TextByte(c, false, relaxed)
    ensures s in {34, 35, 38, 39, 42, 43, 46} && c == 47 ==> Delta(s, c, relaxed) == Into(Behind(s), [])
    ensures Behind(s) != ERROR ==> Delta(Behind(s), c, relaxed) == Into(Behind(s), [])
    ensures s == ERROR ==> Behind(s) == ERROR
  {
    if s in {34, 35, 38, 39, 42, 43, 46} {
      HostEdges(s, c, relaxed);
    }
    PathEdges(26, c, relaxed);
    hide Delta;
  }

  lemma HostedByteIn(buf: string, from: nat, to: nat, a: nat, relaxed: bool)
    requires Bytes(buf) && from + 2 <= to < |buf| && TextByte(Signed(buf[to]), false, relaxed)
    requires a == FirstAt(buf, '/', from + 2, to) && a < to
    ensures var s, s' := HostedAt(buf, from, to), HostedAt(buf, from, to + 1);
      if s == ERROR then s' == ERROR else Delta(s, Signed(buf[to]), relaxed) == Into(s', [])
  {
    hide *;
    HostedNext(buf, from, to, a);
    BehindEdges(AuthorityAt(buf, from + 2, a), Signed(buf[to]), relaxed);
  }

  lemma HostedByteAt(buf: string, from: nat, to: nat, relaxed: bool)
    requires Bytes(buf) && from + 2 <= to < |buf| && TextByte(Signed(buf[to]), false, relaxed)
    requires to == FirstAt(buf, '/', from + 2, to) && buf[to] != '/'
    ensures var s, s' := HostedAt(buf, from, to), HostedAt(buf, from, to + 1);
      if s == ERROR then s' == ERROR else Delta(s, Signed(buf[to]), relaxed) == Into(s', [])
  {
    hide *;
    HostedNext(buf, from, to, to);
    AuthorityByte(buf, from + 2, to, relaxed);
  }

  lemma HostedByteEnd(buf: string, from: nat, to: nat, relaxed: bool)
    requires Bytes(buf) && from + 2 <= to < |buf| && TextByte(Signed(buf[to]), false, relaxed)
    requires to == FirstAt(buf, '/', from + 2, to) && Signed(buf[to]) == 47 && buf[to] == '/'
    ensures var s, s' := HostedAt(buf, from, to), HostedAt(buf, from, to + 1);
      if s == ERROR then s' == ERROR else Delta(s, Signed(buf[to]), relaxed) == Into(s', [])
  {
    hide *;
    HostedNext(buf, from, to, to);
    AuthorityAtExactly(buf, from + 2, to);
    BehindEdges(AuthorityAt(buf, from + 2, to), Signed(buf[to]), relaxed);
  }

  lemma HostedByte(buf: string, from: nat, to: nat, relaxed: bool)
    requires Bytes(buf) && from + 2 <= to < |buf| && TextByte(Signed(buf[to]), false, relaxed)
    ensures var s, s' := HostedAt(buf, from, to), HostedAt(buf, from, to + 1);
      if s == ERROR then s' == ERROR else Delta(s, Signed(buf[to]), relaxed) == Into(s', [])
  {
    var a := FirstAt(buf, '/', from + 2, to);
    assert buf[to] == '/' ==> Signed(buf[to]) == 47;
    hide *;
    if a < to {
      HostedByteIn(buf, from, to, a, relaxed);
    } else if buf[to] != '/' {
      HostedByteAt(buf, from, to, relaxed);
    } else {
      HostedByteEnd(buf, from, to, relaxed);
    }
  }

  lemma RelativeByte(buf: string, from: nat, to: nat, relaxed: bool)
    requires Bytes(buf) && from < to < |buf| && TextByte(Signed(buf[to]), false, relaxed)
    requires !Scheming(buf, from, to + 1)
    ensures var s, s' := RelativeAt(buf, from, to), RelativeAt(buf, from, to + 1);
      if s == ERROR then s' == ERROR else Delta(s, Signed(buf[to]), relaxed) == Into(s', [])
  {
    assert buf[to] == '/' <==> Signed(buf[to]) == 47;
    assert buf[to] == ':' <==> Signed(buf[to]) == 58;
    assert SchemeText(buf, from, to + 1) <==> SchemeText(buf, from, to) && SchemeByte(Signed(buf[to]));
    OneMore(buf, '/', from, to);
    OneMore(buf, ':', from, to);
    hide FirstAt, TextByte, Delta, SchemeText;
    var s := RelativeAt(buf, from, to);
    if s != ERROR {
      PathEdges(s, Signed(buf[to]), relaxed);
    }
    hide SchemeByte;
  }

  /** The first byte of a path. */
  lemma FirstByte(buf: string, from: nat, schemed: bool, relaxed: bool)
    requires Bytes(buf) && from < |buf| && TextByte(Signed(buf[from]), false, relaxed)
    ensures Delta(if schemed then 174 else 3, Signed(buf[from]), relaxed)
         == Into(PathAt(buf, from, from + 1, schemed), [MARK])
  {
    var c := Signed(buf[from]);
    assert (buf[from] == '/' <==> c == 47) && (buf[from] == ':' <==> c == 58);
    OneMore(buf, '/', from, from);
    OneMore(buf, ':', from, from);
    PathEdges(if schemed then 174 else 3, c, relaxed);
    assert SchemeText(buf, from, from + 1) <==> Letter(c);
    hide FirstAt, TextByte, Delta, SchemeText;
  }

  /** One more byte of a readable path goes where the path with it ends, or nowhere if that is nowhere. */
  lemma PathByte(buf: string, from: nat, to: nat, schemed: bool, relaxed: bool)
    requires Bytes(buf) && from <= to < |buf| && TextByte(Signed(buf[to]), false, relaxed)
    requires schemed || !Scheming(buf, from, to + 1)
    ensures var s, s' := PathAt(buf, from, to, schemed), PathAt(buf, from, to + 1, schemed);
      if s == ERROR then s' == ERROR
      else Delta(s, Signed(buf[to]), relaxed) == Into(s', if from == to then [MARK] else [])
  {
    assert buf[to] == '/' <==> Signed(buf[to]) == 47;
    HostBegins(buf, from + 1, false);
    hide FirstAt, TextByte, Delta, HostedAt, RelativeAt, Scheming;
    if from == to {
      FirstByte(buf, from, schemed, relaxed);
    } else if buf[from] != '/' && !schemed {
      RelativeByte(buf, from, to, relaxed);
    } else if buf[from] != '/' {
      PathEdges(26, Signed(buf[to]), relaxed);
    } else if to == from + 1 {
      SecondByte(buf, from, relaxed);
    } else if buf[from + 1] == '/' {
      HostedByte(buf, from, to, relaxed);
    } else {
      PathEdges(26, Signed(buf[to]), relaxed);
    }
  }

  lemma SecondByte(buf: string, from: nat, relaxed: bool)
    requires Bytes(buf) && from + 1 < |buf| && buf[from] == '/' && TextByte(Signed(buf[from + 1]), false, relaxed)
    ensures Delta(33, Signed(buf[from + 1]), relaxed)
         == To(if buf[from + 1] == '/' then HostedAt(buf, from, from + 2) else 26)
  {
    assert buf[from + 1] == '/' <==> Signed(buf[from + 1]) == 47;
    HostBegins(buf, from + 2, false);
    PathEdges(33, Signed(buf[from + 1]), relaxed);
    hide HostAt, Delta;
  }

  // ---- One more escape ----

  predicate EscapeAt(buf: string, p: nat) {
    p + 3 <= |buf| && buf[p] == '%' && HexChar(buf[p + 1]) && HexChar(buf[p + 2])
  }

  /** The state behind an escape, or none: ports hold digits only. */
  function Escaped(s: nat): nat {
    if s in {3, 19, 173} then 19 else if s in {174, 26, 33} then 26 else if s in {34, 35} then 35
    else if s in {38, 39} then 39 else if s in {42, 43} then 43 else ERROR
  }

  /** The state behind its percent sign. */
  function EscapeBy(s: nat): nat {
    if s in {3, 19, 173} then 24 else if s in {174, 26, 33} then 27 else if s in {34, 35} then 36
    else if s in {38, 39} then 40 else 44
  }

  lemma EscapeEdges(s: nat, x: int, y: int, relaxed: bool)
    requires s in {3, 174, 19, 173, 26, 33, 34, 35, 38, 39, 42, 43, 46} && HexByte(x) && HexByte(y)
    ensures if Escaped(s) == ERROR then Delta(s, 37, relaxed) == FAIL
            else Delta(s, 37, relaxed) == Edge(EscapeBy(s), if s in {3, 174} then [MARK] else [])
    ensures Delta(EscapeBy(s), x, relaxed) == To(EscapeBy(s) + 1)
    ensures Escaped(s) != ERROR ==> Delta(EscapeBy(s) + 1, y, relaxed) == To(Escaped(s))
  {
  }

  lemma EscapeSkips(buf: string, c: char, p: nat, to: nat)
    requires Bytes(buf) && p <= to && EscapeAt(buf, to) && c in ['/', ':', '@']
    ensures FirstAt(buf, c, p, to + 3) == if FirstAt(buf, c, p, to) < to then FirstAt(buf, c, p, to) else to + 3
  {
    OneMore(buf, c, p, to);
    OneMore(buf, c, p, to + 1);
    OneMore(buf, c, p, to + 2);
    hide FirstAt;
  }

  lemma HostEscape(buf: string, p: nat, a: nat, user: bool)
    requires Bytes(buf) && p <= a && EscapeAt(buf, a)
    ensures HostAt(buf, p, a + 3, user) == Escaped(HostAt(buf, p, a, user))
  {
    EscapeSkips(buf, ':', p, a);
    hide FirstAt, Bytes;
    var colon := FirstAt(buf, ':', p, a);
    if colon < a {
      NotDigits(buf, colon + 1, a + 3, a);
    }
    hide Digits;
  }

  lemma NotDigits(buf: string, p: nat, to: nat, i: nat)
    requires p <= i < to <= |buf| && buf[i] == '%'
    ensures !Digits(buf, p, to)
  {
  }

  lemma AuthorityEscape(buf: string, p: nat, a: nat)
    requires Bytes(buf) && p <= a && EscapeAt(buf, a)
    ensures AuthorityAt(buf, p, a + 3) == Escaped(AuthorityAt(buf, p, a))
  {
    var at := FirstAt(buf, '@', p, a);
    EscapeSkips(buf, '@', p, a);
    if at < a {
      EscapeSkips(buf, '@', at + 1, a);
      HostEscape(buf, at + 1, a, true);
    } else {
      HostEscape(buf, p, a, false);
    }
    hide FirstAt, HostAt, Bytes, EscapeAt;
  }

  lemma BehindEscapes(s: nat)
    ensures Escaped(Behind(s)) == Behind(s)
  {
  }

  lemma HostedEscapeIn(buf: string, from: nat, to: nat, a: nat)
    requires Bytes(buf) && from + 2 <= to && EscapeAt(buf, to) && to + 3 <= |buf|
    requires a == FirstAt(buf, '/', from + 2, to) == FirstAt(buf, '/', from + 2, to + 3) && a < to
    ensures HostedAt(buf, from, to + 3) == Escaped(HostedAt(buf, from, to))
  {
    hide *;
    HostedIs(buf, from, to, a);
    HostedIs(buf, from, to + 3, a);
    BehindEscapes(AuthorityAt(buf, from + 2, a));
  }

  lemma HostedEscapeAt(buf: string, from: nat, to: nat)
    requires Bytes(buf) && from + 2 <= to && EscapeAt(buf, to) && to + 3 <= |buf|
    requires to == FirstAt(buf, '/', from + 2, to) && to + 3 == FirstAt(buf, '/', from + 2, to + 3)
    ensures HostedAt(buf, from, to + 3) == Escaped(HostedAt(buf, from, to))
  {
    hide *;
    HostedIs(buf, from, to, to);
    HostedIs(buf, from, to + 3, to + 3);
    AuthorityEscape(buf, from + 2, to);
  }

  lemma HostedEscape(buf: string, from: nat, to: nat)
    requires Bytes(buf) && from + 2 <= to && EscapeAt(buf, to)
    ensures HostedAt(buf, from, to + 3) == Escaped(HostedAt(buf, from, to))
  {
    var a := FirstAt(buf, '/', from + 2, to);
    assert to + 3 <= |buf|;
    hide *;
    EscapeSkips(buf, '/', from + 2, to);
    if a < to {
      HostedEscapeIn(buf, from, to, a);
    } else {
      HostedEscapeAt(buf, from, to);
    }
  }

  lemma RelativeEscape(buf: string, from: nat, to: nat)
    requires Bytes(buf) && from < to && EscapeAt(buf, to)
    ensures RelativeAt(buf, from, to + 3) == Escaped(RelativeAt(buf, from, to))
  {
    EscapeSkips(buf, '/', from, to);
    EscapeSkips(buf, ':', from, to);
    assert !SchemeText(buf, from, to + 3) by {
      assert !SchemeByte(Signed(buf[to]));
    }
    hide FirstAt, SchemeText;
  }

  lemma FirstEscape(buf: string, from: nat)
    requires Bytes(buf) && EscapeAt(buf, from)
    ensures RelativeAt(buf, from, from + 3) == 19
  {
    EscapeSkips(buf, '/', from, from);
    EscapeSkips(buf, ':', from, from);
    assert !SchemeText(buf, from, from + 3) by {
      assert !SchemeByte(Signed(buf[from]));
    }
    hide SchemeText;
  }

  lemma PathEscape(buf: string, from: nat, to: nat, schemed: bool)
    requires Bytes(buf) && from <= to && EscapeAt(buf, to)
    ensures PathAt(buf, from, to + 3, schemed) == Escaped(PathAt(buf, from, to, schemed))
  {
    hide FirstAt, HostedAt, RelativeAt, Bytes;
    if from == to {
      FirstEscape(buf, from);
    } else if buf[from] != '/' && !schemed {
      RelativeEscape(buf, from, to);
    } else if buf[from] == '/' && to > from + 1 && buf[from + 1] == '/' {
      HostedEscape(buf, from, to);
    }
  }

  // ---- Runs over a path ----

  function PathRegs(g: Regs, from: nat, to: nat): Regs {
    if from == to then g else g.(mark := from)
  }

  function StartOf(schemed: bool): nat {
    if schemed then 174 else 3
  }

  lemma PathMarks(g: Regs, from: nat, p: nat)
    requires from <= p
    ensures Fired(PathRegs(g, from, p), if from == p then [MARK] else [], p) == PathRegs(g, from, p + 1)
    ensures PathRegs(g, from, p + 1) == PathRegs(g, from, p + 3)
  {
  }

  lemma HostedRange(buf: string, from: nat, to: nat)
    requires from + 2 <= to <= |buf|
    ensures HostedAt(buf, from, to) in {ERROR, 26, 34, 35, 38, 39, 42, 43, 46}
  {
    var a := FirstAt(buf, '/', from + 2, to);
    HostedIs(buf, from, to, a);
    AuthorityAtExactly(buf, from + 2, a);
    hide FirstAt, AuthorityAt, AuthorityForm, HostedAt;
  }

  lemma PathStateKnown(buf: string, from: nat, p: nat, schemed: bool)
    requires from <= p <= |buf|
    ensures var s := PathAt(buf, from, p, schemed);
      s < STATES && (s != ERROR ==> Known(s) && s in {3, 174, 19, 173, 26, 33, 34, 35, 38, 39, 42, 43, 46})
    ensures PathAt(buf, from, p, schemed) in {3, 174} <==> from == p
  {
    if from + 2 <= p {
      HostedRange(buf, from, p);
    }
    hide FirstAt, HostedAt, ColonFirst, SchemeText;
  }

  /** The run gets to the state with these registers, or dies if that is no state. */
  ghost predicate Reaches(t: Tables, relaxed: bool, cs: nat, g: Regs, buf: string, p: nat, s: nat, g': Regs, q: nat)
    requires IsRequestTable(t) && cs < STATES && s < STATES && p <= |buf| && q <= |buf|
  {
    if s == ERROR then Run(t, relaxed, cs, g, buf, p).cs == ERROR
    else Run(t, relaxed, cs, g, buf, p) == Run(t, relaxed, s, g', buf, q)
  }

  lemma PathByteRuns(t: Tables, relaxed: bool, g: Regs, buf: string, from: nat, p: nat, schemed: bool)
    requires IsRequestTable(t) && Bytes(buf) && from <= p < |buf| && TextByte(Signed(buf[p]), false, relaxed)
    requires schemed || !Scheming(buf, from, p + 1)
    requires PathAt(buf, from, p, schemed) != ERROR
    ensures PathAt(buf, from, p, schemed) < STATES && PathAt(buf, from, p + 1, schemed) < STATES
    ensures Reaches(t, relaxed, PathAt(buf, from, p, schemed), PathRegs(g, from, p), buf, p,
                    PathAt(buf, from, p + 1, schemed), PathRegs(g, from, p + 1), p + 1)
  {
    var s, s' := PathAt(buf, from, p, schemed), PathAt(buf, from, p + 1, schemed);
    assert DONE !in [MARK];
    hide PathAt, PathRegs, Delta, IsRequestTable, Run, TextByte, Fired, Known, Scheming;
    PathStateKnown(buf, from, p, schemed);
    PathStateKnown(buf, from, p + 1, schemed);
    PathByte(buf, from, p, schemed, relaxed);
    PathMarks(g, from, p);
    if s' == ERROR {
      Dies(t, relaxed, s, PathRegs(g, from, p), buf, p);
    } else {
      Goes(t, relaxed, s, PathRegs(g, from, p), buf, p, Edge(s', if from == p then [MARK] else []));
    }
  }

  /** An escape in a state that expects one. */
  lemma EscapeRuns(t: Tables, relaxed: bool, cs: nat, codes: seq<nat>, m: nat, next: nat, g: Regs, buf: string, p: nat)
    requires IsRequestTable(t) && Bytes(buf) && p + 3 <= |buf| && buf[p] == '%'
    requires Known(cs) && Known(m) && Known(m + 1) && Known(next) && |codes| <= 3 && DONE !in codes
    requires m != ERROR && next != ERROR
    requires Delta(cs, 37, relaxed) == Edge(m, codes) && Delta(m, Signed(buf[p + 1]), relaxed) == To(m + 1)
    requires Delta(m + 1, Signed(buf[p + 2]), relaxed) == To(next)
    ensures Run(t, relaxed, cs, g, buf, p) == Run(t, relaxed, next, Fired(g, codes, p), buf, p + 3)
  {
    hide IsRequestTable, Run, Delta, Known, Act;
    Goes(t, relaxed, cs, g, buf, p, Edge(m, codes));
    Goes(t, relaxed, m, Fired(g, codes, p), buf, p + 1, To(m + 1));
    Goes(t, relaxed, m + 1, Fired(g, codes, p), buf, p + 2, To(next));
  }

  lemma EscapeBytes(buf: string, p: nat, s: nat)
    requires EscapeAt(buf, p)
    ensures p + 3 <= |buf| && buf[p] == '%' && Signed(buf[p]) == 37
    ensures HexByte(Signed(buf[p + 1])) && HexByte(Signed(buf[p + 2]))
    ensures Known(EscapeBy(s)) && Known(EscapeBy(s) + 1) && EscapeBy(s) != ERROR
    ensures DONE !in [MARK]
  {
  }

  lemma PathEscapeRuns(t: Tables, relaxed: bool, g: Regs, buf: string, from: nat, p: nat, schemed: bool)
    requires IsRequestTable(t) && Bytes(buf) && from <= p && EscapeAt(buf, p)
    requires p + 3 <= |buf| && PathAt(buf, from, p, schemed) != ERROR
    ensures PathAt(buf, from, p, schemed) < STATES && PathAt(buf, from, p + 3, schemed) < STATES
    ensures Reaches(t, relaxed, PathAt(buf, from, p, schemed), PathRegs(g, from, p), buf, p,
                    PathAt(buf, from, p + 3, schemed), PathRegs(g, from, p + 3), p + 3)
  {
    hide *;
    var s := PathAt(buf, from, p, schemed);
    EscapeBytes(buf, p, s);
    PathStateKnown(buf, from, p, schemed);
    PathStateKnown(buf, from, p + 3, schemed);
    PathEscape(buf, from, p, schemed);
    PathMarks(g, from, p);
    EscapeEdges(s, Signed(buf[p + 1]), Signed(buf[p + 2]), relaxed);
    if Escaped(s) == ERROR {
      Dies(t, relaxed, s, PathRegs(g, from, p), buf, p);
    } else {
      var codes := if from == p then [MARK] else [];
      EscapeRuns(t, relaxed, s, codes, EscapeBy(s), Escaped(s), PathRegs(g, from, p), buf, p);
    }
    ReachesIs(t, relaxed, s, PathRegs(g, from, p), buf, p, Escaped(s), PathRegs(g, from, p + 3), p + 3);
  }

  lemma ReachesIs(t: Tables, relaxed: bool, cs: nat, g: Regs, buf: string, p: nat, s: nat, g': Regs, q: nat)
    requires IsRequestTable(t) && cs < STATES && s < STATES && p <= |buf| && q <= |buf|
    ensures Reaches(t, relaxed, cs, g, buf, p, s, g', q) <==>
            if s == ERROR then Run(t, relaxed, cs, g, buf, p).cs == ERROR
            else Run(t, relaxed, cs, g, buf, p) == Run(t, relaxed, s, g', buf, q)
  {
  }

  lemma ShorterIsFree(buf: string, from: nat, p: nat, to: nat)
    requires from <= p <= to <= |buf| && !Scheming(buf, from, to)
    ensures !Scheming(buf, from, p)
  {
    FirstAtMore(buf, ':', from, p, to);
    FirstAtMore(buf, '/', from, p, to);
    hide FirstAt, SchemeText;
  }

  /** The last byte, or the last escape, of a readable path. */
  lemma LastToken(buf: string, from: nat, end: nat, relaxed: bool) returns (before: nat)
    requires Readable(buf, from, end, false, relaxed) && from < end
    ensures from <= before < end <= |buf| && Readable(buf, from, before, false, relaxed)
    ensures (end == before + 1 && TextByte(Signed(buf[before]), false, relaxed))
            || (end == before + 3 && EscapeAt(buf, before))
  {
    var byte := TextByte(Signed(buf[end - 1]), false, relaxed) && Readable(buf, from, end - 1, false, relaxed);
    before := if byte then end - 1 else end - 3;
    hide TextByte, HexByte;
  }

  /** Over a readable path the run ends in the state that `PathAt` names, with its start marked, or dies. */
  lemma {:induction false} PathRuns(t: Tables, relaxed: bool, g: Regs, buf: string, from: nat, end: nat, schemed: bool)
    requires IsRequestTable(t) && Bytes(buf) && Readable(buf, from, end, false, relaxed)
    requires from <= end <= |buf| && (schemed || !Scheming(buf, from, end))
    ensures PathAt(buf, from, end, schemed) < STATES && StartOf(schemed) < STATES
    ensures Reaches(t, relaxed, StartOf(schemed), g, buf, from,
                    PathAt(buf, from, end, schemed), PathRegs(g, from, end), end)
    decreases end
  {
    hide *;
    PathStateKnown(buf, from, end, schemed);
    if end == from {
      NoPath(t, relaxed, g, buf, from, schemed);
    } else {
      var p := LastToken(buf, from, end, relaxed);
      if !schemed {
        ShorterIsFree(buf, from, p, end);
      }
      PathRuns(t, relaxed, g, buf, from, p, schemed);
      if PathAt(buf, from, p, schemed) == ERROR {
        DeadStaysDead(buf, from, p, end, schemed, relaxed);
      } else if end == p + 1 {
        PathByteRuns(t, relaxed, g, buf, from, p, schemed);
      } else {
        PathEscapeRuns(t, relaxed, g, buf, from, p, schemed);
      }
      ReachesOn(t, relaxed, StartOf(schemed), g, buf, from, PathAt(buf, from, p, schemed), PathRegs(g, from, p), p,
                PathAt(buf, from, end, schemed), PathRegs(g, from, end), end);
    }
  }

  lemma ReachesOn(t: Tables, relaxed: bool, cs: nat, g: Regs, buf: string, p: nat, s1: nat, g1: Regs, q1: nat,
                  s2: nat, g2: Regs, q2: nat)
    requires IsRequestTable(t) && cs < STATES && s1 < STATES && s2 < STATES && p <= |buf| && q1 <= |buf| && q2 <= |buf|
    requires Reaches(t, relaxed, cs, g, buf, p, s1, g1, q1)
    requires if s1 == ERROR then s2 == ERROR else Reaches(t, relaxed, s1, g1, buf, q1, s2, g2, q2)
    ensures Reaches(t, relaxed, cs, g, buf, p, s2, g2, q2)
  {
  }

  lemma DeadStaysDead(buf: string, from: nat, p: nat, end: nat, schemed: bool, relaxed: bool)
    requires Bytes(buf) && from <= p < end <= |buf| && PathAt(buf, from, p, schemed) == ERROR
    requires schemed || !Scheming(buf, from, end)
    requires (end == p + 1 && TextByte(Signed(buf[p]), false, relaxed)) || (end == p + 3 && EscapeAt(buf, p))
    ensures PathAt(buf, from, end, schemed) == ERROR
  {
    hide PathAt, TextByte, EscapeAt, Scheming;
    if end == p + 1 {
      PathByte(buf, from, p, schemed, relaxed);
    } else {
      PathEscape(buf, from, p, schemed);
    }
  }

  lemma NoPath(t: Tables, relaxed: bool, g: Regs, buf: string, from: nat, schemed: bool)
    requires IsRequestTable(t) && from <= |buf|
    ensures PathAt(buf, from, from, schemed) == StartOf(schemed) && StartOf(schemed) < STATES
    ensures Reaches(t, relaxed, StartOf(schemed), g, buf, from, StartOf(schemed), PathRegs(g, from, from), from)
  {
    hide Run, IsRequestTable;
  }

  function PathReported(g: Regs, from: nat, p: nat): Regs {
    g.(mark := from, calls := g.calls + [Element(PATH, from, p - from)])
  }

  function UriReported(g: Regs, p: nat): Regs {
    g.(calls := g.calls + [Element(URI, g.mark, p - g.mark)])
  }

  /** What is reported at the end of a path: the URI as well, unless a query follows. */
  function PathClosed(g: Regs, from: nat, p: nat, c: char): Regs {
    var path := PathReported(g, from, p);
    if c == '?' then path else UriReported(path, p)
  }

  function PathCodes(from: nat, p: nat, c: char): seq<nat> {
    (if from == p then [MARK] else []) + if c == '?' then [PATH] else [PATH, URI]
  }

  /** The state behind the character that ends a path. */
  function PathTarget(c: char): nat {
    if c == ' ' then 4 else if c == '#' then 20 else 29
  }

  lemma PathCodesAre(from: nat, p: nat, c: char)
    ensures PathCodes(from, p, c) == if from == p then if c == '?' then [MARK, PATH] else [MARK, PATH, URI]
                                     else if c == '?' then [PATH] else [PATH, URI]
  {
  }

  lemma PathFires(g: Regs, from: nat, p: nat, c: char)
    requires from <= p
    ensures |PathCodes(from, p, c)| <= 3 && DONE !in PathCodes(from, p, c)
    ensures Fired(PathRegs(g, from, p), PathCodes(from, p, c), p) == PathClosed(g, from, p, c)
  {
    PathCodesAre(from, p, c);
    hide PathCodes;
  }

  lemma PathEdgesOut(s: nat, c: char, from: nat, p: nat, relaxed: bool)
    requires s in {3, 174, 19, 173, 26, 33, 34, 35, 38, 39, 42, 43, 46} && c in [' ', '#', '?']
    requires s in {3, 174} <==> from == p
    ensures Delta(s, Signed(c), relaxed) == if s == 39 then FAIL else Edge(PathTarget(c), PathCodes(from, p, c))
    ensures PathTarget(c) in {4, 20, 29} && PathTarget(c) != ERROR
  {
    PathCodesAre(from, p, c);
    hide PathCodes;
  }

  /**
   A readable path is accepted, and reported at the character that ends it, exactly when it has the form of the
   grammar: a run over any other dies.
   */
  lemma PathsExactly(t: Tables, relaxed: bool, g: Regs, buf: string, from: nat, p: nat, schemed: bool)
    requires IsRequestTable(t) && Bytes(buf) && Readable(buf, from, p, false, relaxed)
    requires from <= p < |buf| && buf[p] in [' ', '#', '?'] && (schemed || !Scheming(buf, from, p))
    ensures StartOf(schemed) < STATES && PathTarget(buf[p]) < STATES
    ensures var r := Run(t, relaxed, StartOf(schemed), g, buf, from);
      if PathForm(buf, from, p, schemed) then
        r == Run(t, relaxed, PathTarget(buf[p]), PathClosed(g, from, p, buf[p]), buf, p + 1)
      else r.cs == ERROR
  {
    var s := PathAt(buf, from, p, schemed);
    hide *;
    PathRuns(t, relaxed, g, buf, from, p, schemed);
    PathStateKnown(buf, from, p, schemed);
    PathAtExactly(buf, from, p, schemed);
    ReachesIs(t, relaxed, StartOf(schemed), g, buf, from, s, PathRegs(g, from, p), p);
    TargetsKnown(buf[p]);
    if s != ERROR {
      PathEdgesOut(s, buf[p], from, p, relaxed);
      PathFires(g, from, p, buf[p]);
      if s == 39 {
        Dies(t, relaxed, s, PathRegs(g, from, p), buf, p);
      } else {
        Goes(t, relaxed, s, PathRegs(g, from, p), buf, p, Edge(PathTarget(buf[p]), PathCodes(from, p, buf[p])));
      }
    }
  }

  lemma TargetsKnown(c: char)
    ensures PathTarget(c) < STATES
  {
  }

  // ---- Runs over a scheme ----

  lemma SchemeEdges(c: int, relaxed: bool)
    ensures Letter(c) ==> Delta(3, c, relaxed) == Edge(173, [MARK])
    ensures SchemeByte(c) ==> Delta(173, c, relaxed) == Edge(173, [])
    ensures Delta(173, 58, relaxed) == Edge(174, []) && 173 != ERROR && 174 != ERROR && DONE !in [MARK]
  {
  }

  lemma FiresNothing(g: Regs, p: nat)
    ensures Fired(g, [], p) == g && Fired(g, [MARK], p) == g.(mark := p)
  {
  }

  lemma SchemeShorter(buf: string, from: nat, k: nat)
    requires SchemeText(buf, from, k)
    ensures from < k <= |buf| && Letter(Signed(buf[from])) && SchemeByte(Signed(buf[k - 1]))
    ensures k > from + 1 ==> SchemeText(buf, from, k - 1)
  {
  }

  lemma {:induction false} SchemeRuns(t: Tables, relaxed: bool, g: Regs, buf: string, from: nat, k: nat)
    requires IsRequestTable(t) && Bytes(buf) && SchemeText(buf, from, k) && from < k <= |buf|
    ensures 173 < STATES && Run(t, relaxed, 3, g, buf, from) == Run(t, relaxed, 173, g.(mark := from), buf, k)
    decreases k
  {
    hide *;
    SchemeShorter(buf, from, k);
    LineStatesKnown(3);
    LineStatesKnown(173);
    SchemeEdges(Signed(buf[from]), relaxed);
    SchemeEdges(Signed(buf[k - 1]), relaxed);
    if k == from + 1 {
      FiresNothing(g, from);
      Goes(t, relaxed, 3, g, buf, from, Edge(173, [MARK]));
    } else {
      SchemeRuns(t, relaxed, g, buf, from, k - 1);
      FiresNothing(g.(mark := from), k - 1);
      Goes(t, relaxed, 173, g.(mark := from), buf, k - 1, Edge(173, []));
    }
  }

  lemma ColonIs(c: char)
    requires c == ':'
    ensures Signed(c) == 58
  {
  }

  /** A scheme and its colon: the parser starts the path behind it anew. */
  lemma SchemeCloses(t: Tables, relaxed: bool, g: Regs, buf: string, from: nat, k: nat)
    requires IsRequestTable(t) && Bytes(buf) && SchemeText(buf, from, k) && from < k < |buf| && buf[k] == ':'
    ensures 174 < STATES && Run(t, relaxed, 3, g, buf, from) == Run(t, relaxed, 174, g.(mark := from), buf, k + 1)
  {
    hide *;
    ColonIs(buf[k]);
    LineStatesKnown(173);
    SchemeEdges(58, relaxed);
    SchemeRuns(t, relaxed, g, buf, from, k);
    FiresNothing(g.(mark := from), k);
    Goes(t, relaxed, 173, g.(mark := from), buf, k, Edge(174, []));
  }
}
