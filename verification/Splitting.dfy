/**
 The string helpers of the text parser: splitting at a delimiter, joining, and trimming white space.

 `Split` and `Join` undo each other: always in one direction, and in the other exactly when no proper prefix of
 the delimiter is also its suffix.
 */
module Splitting {
  import opened Prelude

  const CRLF: string := "\r\n"

  lemma Regroup(a: string, b: string, c: string, d: string)
    ensures a + b + c + d == a + (b + c + d) && a + (b + c) + d == a + b + c + d
  {
  }

  lemma RegroupFive(a: string, b: string, c: string, d: string, e: string)
    ensures a + (b + c + d) + e == a + b + (c + d + e)
  {
  }

  // ---- Searching ----

  predicate MatchesAt(s: string, d: string, i: nat) {
    i + |d| <= |s| && s[i..i + |d|] == d
  }

  /** `std::string_view::find`: the first match at `from` or later. */
  function Find(s: string, d: string, from: nat): (r: Option<nat>)
    requires from <= |s|
    ensures r.Some? ==> from <= r.value && r.value + |d| <= |s| && MatchesAt(s, d, r.value)
    ensures forall j :: from <= j < (if r.Some? then r.value else |s| + 1) ==> !MatchesAt(s, d, j)
    decreases |s| - from
  {
    if MatchesAt(s, d, from) then Some(from)
    else if from == |s| then None
    else Find(s, d, from + 1)
  }

  predicate Contains(s: string, d: string) {
    exists i :: 0 <= i <= |s| && MatchesAt(s, d, i)
  }

  lemma MatchShows(s: string, d: string, i: nat)
    requires d != [] && MatchesAt(s, d, i)
    ensures d[0] in s
  {
    assert s[i] == s[i..i + |d|][0];
  }

  lemma FindIs(s: string, d: string, from: nat, r: Option<nat>)
    requires from <= |s|
    requires r.Some? ==> from <= r.value && MatchesAt(s, d, r.value)
    requires forall j :: from <= j < (if r.Some? then r.value else |s| + 1) ==> !MatchesAt(s, d, j)
    ensures Find(s, d, from) == r
  {
  }

  lemma MatchShift(s: string, d: string, from: nat, i: nat)
    requires from <= |s|
    ensures MatchesAt(s[from..], d, i) == MatchesAt(s, d, from + i)
  {
    if from + i + |d| <= |s| {
      assert s[from..][i..i + |d|] == s[from + i..from + i + |d|];
    }
  }

  lemma FindShift(s: string, d: string, from: nat)
    requires from <= |s|
    ensures var r := Find(s[from..], d, 0);
      Find(s, d, from) == if r.Some? then Some(from + r.value) else None
  {
    var u := s[from..];
    forall j: nat ensures MatchesAt(u, d, j) == MatchesAt(s, d, from + j) {
      MatchShift(s, d, from, j);
    }
    hide Find, MatchesAt;
    FindMoved(s, u, d, from);
  }

  lemma FindMoved(s: string, u: string, d: string, from: nat)
    requires |s| == from + |u| && forall j: nat :: MatchesAt(u, d, j) == MatchesAt(s, d, from + j)
    ensures var r := Find(u, d, 0);
      Find(s, d, from) == if r.Some? then Some(from + r.value) else None
  {
    hide Find, MatchesAt;
    var r := Find(u, d, 0);
    forall j: nat | from <= j <= |s| ensures MatchesAt(s, d, j) == MatchesAt(u, d, j - from) {
      assert MatchesAt(u, d, j - from) == MatchesAt(s, d, from + (j - from));
    }
    FindIs(s, d, from, if r.Some? then Some(from + r.value) else None);
  }

  // ---- Splitting and joining ----

  function Split(s: string, d: string): (r: seq<string>)
    requires d != []
    ensures r != []
    decreases |s|
  {
    var at := Find(s, d, 0);
    if at.None? then [s] else [s[..at.value]] + Split(s[at.value + |d|..], d)
  }

  lemma SplitOnce(s: string, d: string)
    requires d != []
    ensures Find(s, d, 0).None? ==> Split(s, d) == [s]
    ensures var at := Find(s, d, 0);
      at.Some? ==> Split(s, d) == [s[..at.value]] + Split(s[at.value + |d|..], d)
  {
  }

  function Join(pieces: seq<string>, d: string): string
    requires pieces != []
  {
    if |pieces| == 1 then pieces[0] else pieces[0] + d + Join(pieces[1..], d)
  }

  /** One more piece is one more delimiter in front of it. */
  lemma {:induction false} JoinNext(pieces: seq<string>, p: string, d: string)
    ensures Join([p], d) == p
    ensures pieces != [] ==> Join(pieces + [p], d) == Join(pieces, d) + d + p
    decreases |pieces|
  {
    if |pieces| == 1 {
      assert (pieces + [p])[1..] == [p];
    } else if pieces != [] {
      JoinNext(pieces[1..], p, d);
      assert (pieces + [p])[1..] == pieces[1..] + [p];
      var first, rest := pieces[0], Join(pieces[1..], d);
      assert first + d + (rest + d + p) == first + d + rest + d + p;
    }
  }

  ghost predicate Clean(pieces: seq<string>, d: string) {
    forall i :: 0 <= i < |pieces| ==> !Contains(pieces[i], d)
  }

  /** No proper, non-empty prefix of `d` is a suffix of it. */
  predicate BorderFree(d: string) {
    forall k :: 0 < k < |d| ==> d[..k] != d[|d| - k..]
  }

  lemma {:induction false} JoinSplit(s: string, d: string)
    requires d != []
    ensures Join(Split(s, d), d) == s
    decreases |s|
  {
    var at := Find(s, d, 0);
    if at.Some? {
      var rest := s[at.value + |d|..];
      JoinSplit(rest, d);
      assert Split(s, d)[1..] == Split(rest, d);
      assert s == s[..at.value] + s[at.value..at.value + |d|] + rest;
    }
  }

  /**
   Each piece but the last is followed by the delimiter where that first stands in what is left of the text, and the
   last piece does not hold it.
   */
  ghost predicate Leftmost(pieces: seq<string>, d: string)
    requires pieces != []
  {
    if |pieces| == 1 then !Contains(pieces[0], d)
    else
      && (forall j :: 0 <= j < |pieces[0]| ==> !MatchesAt(Join(pieces, d), d, j))
      && Leftmost(pieces[1..], d)
  }

  lemma NoneFound(s: string, d: string)
    ensures Find(s, d, 0).None? <==> !Contains(s, d)
  {
    hide MatchesAt;
  }

  /** A cut is leftmost when its first piece ends at the first match and the rest of it is. */
  lemma LeftmostStep(s: string, d: string, pieces: seq<string>)
    requires d != [] && pieces != [] && Join(pieces, d) == s
    ensures Leftmost(pieces, d) <==>
            var at := Find(s, d, 0);
            if at.None? then pieces == [s]
            else |pieces| > 1 && pieces[0] == s[..at.value] && Leftmost(pieces[1..], d)
                 && Join(pieces[1..], d) == s[at.value + |d|..]
  {
    NoneFound(s, d);
    if |pieces| > 1 {
      var p, rest := pieces[0], Join(pieces[1..], d);
      assert s == p + d + rest && MatchesAt(s, d, |p|) && s[..|p|] == p && s[|p| + |d|..] == rest;
      assert (forall j :: 0 <= j < |p| ==> !MatchesAt(s, d, j)) <==> Find(s, d, 0) == Some(|p|);
    } else {
      assert pieces == [s];
    }
  }

  /** The pieces of a text are the one leftmost way to cut it, whatever the delimiter. */
  lemma {:induction false} SplitExactly(s: string, d: string, pieces: seq<string>)
    requires d != [] && pieces != []
    ensures pieces == Split(s, d) <==> Join(pieces, d) == s && Leftmost(pieces, d)
    decreases |s|
  {
    JoinSplit(s, d);
    SplitOnce(s, d);
    var at := Find(s, d, 0);
    if Join(pieces, d) == s {
      LeftmostStep(s, d, pieces);
      hide Split, Find, MatchesAt, Leftmost, Join;
      if at.Some? && |pieces| > 1 {
        var rest := s[at.value + |d|..];
        SplitExactly(rest, d, pieces[1..]);
        assert pieces == [pieces[0]] + pieces[1..];
      }
    }
  }

  lemma MatchInPrefix(s: string, d: string, n: nat, i: nat)
    requires n <= |s| && MatchesAt(s[..n], d, i)
    ensures MatchesAt(s, d, i)
  {
    assert s[i..i + |d|] == s[..n][i..i + |d|];
  }

  lemma PrefixIsClean(s: string, d: string, n: nat)
    requires n <= |s| && forall j: nat :: j < n ==> !MatchesAt(s, d, j)
    requires d != []
    ensures !Contains(s[..n], d)
  {
    if i: nat :| MatchesAt(s[..n], d, i) {
      MatchInPrefix(s, d, n, i);
    }
  }

  lemma {:induction false} PiecesAreClean(s: string, d: string)
    requires d != []
    ensures Clean(Split(s, d), d)
    decreases |s|
  {
    hide Split, Find, MatchesAt;
    SplitOnce(s, d);
    var at := Find(s, d, 0);
    if at.Some? {
      PiecesAreClean(s[at.value + |d|..], d);
      hide Contains;
      PrefixIsClean(s, d, at.value);
    }
  }

  /** A match that starts inside `p` lies in `p`, or shows a border of the delimiter. */
  lemma EarlyMatch(p: string, d: string, rest: string, j: nat)
    requires j < |p| && MatchesAt(p + d + rest, d, j)
    ensures Contains(p, d) || !BorderFree(d)
  {
    var s := p + d + rest;
    if j + |d| <= |p| {
      assert p[j..j + |d|] == s[j..j + |d|];
      assert MatchesAt(p, d, j);
    } else {
      var k := j + |d| - |p|;
      assert d[|d| - k..] == s[j..j + |d|][|d| - k..] == s[|p|..|p| + k] == d[..k];
    }
  }

  /** In `p + d + rest` with `p` clean, a border-free delimiter is first found right behind `p`. */
  lemma FirstBehindPiece(p: string, d: string, rest: string)
    requires d != [] && BorderFree(d) && !Contains(p, d)
    ensures Find(p + d + rest, d, 0) == Some(|p|)
  {
    assert MatchesAt(p + d + rest, d, |p|);
    if j: nat :| j < |p| && MatchesAt(p + d + rest, d, j) {
      EarlyMatch(p, d, rest, j);
    }
  }

  lemma {:induction false} SplitJoin(pieces: seq<string>, d: string)
    requires pieces != [] && d != [] && BorderFree(d) && Clean(pieces, d)
    ensures Split(Join(pieces, d), d) == pieces
    decreases |pieces|
  {
    var s := Join(pieces, d);
    if |pieces| == 1 {
      assert !Contains(pieces[0], d);
    } else {
      var rest := Join(pieces[1..], d);
      FirstBehindPiece(pieces[0], d, rest);
      assert s[|pieces[0]| + |d|..] == rest && s[..|pieces[0]|] == pieces[0];
      SplitJoin(pieces[1..], d);
    }
  }

  lemma ShortIsClean(p: string, d: string)
    requires |p| < |d|
    ensures !Contains(p, d)
  {
  }

  lemma JoinWithEmpty(p: string, d: string)
    ensures Join([p, ""], d) == p + d
  {
    assert [p, ""][1..] == [""];
    assert p + d + "" == p + d;
  }

  lemma OverlapMatches(d: string, k: nat)
    requires 0 < k < |d| && d[..k] == d[|d| - k..]
    ensures MatchesAt(d[..|d| - k] + d, d, 0)
  {
    var n := |d| - k;
    var s := d[..n] + d;
    forall i | 0 <= i < |d| ensures s[i] == d[i] {
      if i >= n {
        assert s[i] == d[i - n] == d[..k][i - n] == d[n..][i - n];
      }
    }
    assert s[0..|d|] == d;
  }

  /** With a border the other direction fails: here are two clean pieces that come back differently. */
  lemma BorderLosesPieces(d: string, k: nat)
    requires 0 < k < |d| && d[..k] == d[|d| - k..]
    ensures var pieces := [d[..|d| - k], ""];
      Clean(pieces, d) && Split(Join(pieces, d), d) != pieces
  {
    var p := d[..|d| - k];
    var s := p + d;
    ShortIsClean(p, d);
    ShortIsClean("", d);
    hide Split, Find, Join, Contains;
    JoinWithEmpty(p, d);
    OverlapMatches(d, k);
    hide MatchesAt;
    SplitOnce(s, d);
    assert Split(s, d)[0] == "";
  }

  /** Splitting undoes joining for every list of clean pieces if and only if the delimiter has no border. */
  lemma SplitJoinExactly(d: string)
    requires d != []
    ensures BorderFree(d) <==>
            forall pieces :: pieces != [] && Clean(pieces, d) ==> Split(Join(pieces, d), d) == pieces
  {
    if BorderFree(d) {
      forall pieces | pieces != [] && Clean(pieces, d) ensures Split(Join(pieces, d), d) == pieces {
        SplitJoin(pieces, d);
      }
    } else {
      var k :| 0 < k < |d| && d[..k] == d[|d| - k..];
      BorderLosesPieces(d, k);
    }
  }

  lemma CrlfBorderFree()
    ensures BorderFree(CRLF)
  {
    assert CRLF[..1] == "\r" && CRLF[1..] == "\n";
  }

  lemma CharBorderFree(c: char)
    ensures BorderFree([c])
    ensures forall s: string :: Contains(s, [c]) <==> c in s
  {
    forall s: string | c in s ensures Contains(s, [c]) {
      var i :| 0 <= i < |s| && s[i] == c;
      assert MatchesAt(s, [c], i);
    }
    forall s: string | Contains(s, [c]) ensures c in s {
      var i :| 0 <= i <= |s| && MatchesAt(s, [c], i);
      assert s[i..i + 1][0] == c;
    }
  }

  lemma SuffixSlices(s: string, from: nat, at: nat, after: nat, to: nat, end: nat)
    requires at <= after && to == from + at && end == from + after && end <= |s|
    ensures s[from..][..at] == s[from..to] && s[from..][after..] == s[end..]
  {
  }

  lemma SplitOnceAt(u: string, d: string, at: nat, after: nat)
    requires d != [] && Find(u, d, 0) == Some(at) && after == at + |d|
    ensures after <= |u| && Split(u, d) == [u[..at]] + Split(u[after..], d)
  {
    hide Find, MatchesAt;
  }

  lemma FirstPieceFrom(s: string, d: string, from: nat, to: nat, end: nat)
    requires d != [] && from <= |s| && Find(s, d, from) == Some(to) && end == to + |d|
    ensures end <= |s| && Split(s[from..], d) == [s[from..to]] + Split(s[end..], d)
  {
    hide *;
    FindShift(s, d, from);
    SplitOnceAt(s[from..], d, to - from, end - from);
    SuffixSlices(s, from, to - from, end - from, to, end);
  }

  lemma NoPieceFrom(s: string, d: string, from: nat)
    requires d != [] && from <= |s| && Find(s, d, from).None?
    ensures Split(s[from..], d) == [s[from..]]
  {
    hide *;
    FindShift(s, d, from);
    SplitOnce(s[from..], d);
  }

  /** The pieces of a suffix, read off the whole string. */
  lemma SplitFrom(s: string, d: string, from: nat)
    requires d != [] && from <= |s|
    ensures Find(s, d, from).None? ==> Split(s[from..], d) == [s[from..]]
    ensures var at := Find(s, d, from);
      at.Some? ==> Split(s[from..], d) == [s[from..at.value]] + Split(s[at.value + |d|..], d)
  {
    hide *;
    var at := Find(s, d, from);
    if at.Some? {
      FirstPieceFrom(s, d, from, at.value, at.value + |d|);
    } else {
      NoPieceFrom(s, d, from);
    }
  }

  /** The loop over a one-character delimiter. */
  method SplitAtChar(s: string, delimiter: char) returns (result: seq<string>)
    ensures result == Split(s, [delimiter])
  {
    hide Split, Find, MatchesAt;
    result := [];
    var segmentStart := 0;
    var segmentEnd := Find(s, [delimiter], segmentStart);
    assert s[0..] == s;
    while segmentEnd.Some?
      invariant segmentStart <= |s| && segmentEnd == Find(s, [delimiter], segmentStart)
      invariant result + Split(s[segmentStart..], [delimiter]) == Split(s, [delimiter])
      decreases |s| - segmentStart
    {
      SplitFrom(s, [delimiter], segmentStart);
      var token := s[segmentStart..segmentEnd.value];
      ghost var rest := Split(s[segmentEnd.value + 1..], [delimiter]);
      assert result + ([token] + rest) == result + [token] + rest;
      result := result + [token];
      segmentStart := segmentEnd.value + 1;
      segmentEnd := Find(s, [delimiter], segmentStart);
    }
    SplitFrom(s, [delimiter], segmentStart);
    result := result + [s[segmentStart..]];
  }

  /** The loop over a string delimiter. */
  method SplitAt(s: string, delimiter: string) returns (result: seq<string>)
    requires delimiter != []
    ensures result == Split(s, delimiter)
  {
    hide Split, Find, MatchesAt;
    result := [];
    var segmentStart := 0;
    var segmentEnd := Find(s, delimiter, segmentStart);
    assert s[0..] == s;
    while segmentEnd.Some?
      invariant segmentStart <= |s| && segmentEnd == Find(s, delimiter, segmentStart)
      invariant result + Split(s[segmentStart..], delimiter) == Split(s, delimiter)
      decreases |s| - segmentStart
    {
      SplitFrom(s, delimiter, segmentStart);
      var token := s[segmentStart..segmentEnd.value];
      ghost var rest := Split(s[segmentEnd.value + |delimiter|..], delimiter);
      assert result + ([token] + rest) == result + [token] + rest;
      result := result + [token];
      segmentStart := segmentEnd.value + |delimiter|;
      segmentEnd := Find(s, delimiter, segmentStart);
    }
    SplitFrom(s, delimiter, segmentStart);
    result := result + [s[segmentStart..]];
  }

  // ---- Trimming ----

  /** `std::isspace` in the C locale. */
  predicate IsSpace(c: char) {
    c == ' ' || 9 <= c as int <= 13
  }

  lemma SpaceCharacters(c: char)
    ensures IsSpace(c) <==> c in " \t\n\r" || c as int == 11 || c as int == 12
  {
  }

  predicate AllSpace(s: string) {
    forall i :: 0 <= i < |s| ==> IsSpace(s[i])
  }

  function FirstNonSpace(s: string): (i: nat)
    ensures i <= |s| && AllSpace(s[..i]) && (i < |s| ==> !IsSpace(s[i]))
  {
    if s == [] || !IsSpace(s[0]) then 0
    else
      var i := FirstNonSpace(s[1..]);
      assert s[..i + 1] == [s[0]] + s[1..][..i];
      i + 1
  }

  /** One past the last character that is not white space. */
  function EndNonSpace(s: string): (i: nat)
    ensures i <= |s| && AllSpace(s[i..]) && (i > 0 ==> !IsSpace(s[i - 1]))
  {
    if s == [] || !IsSpace(s[|s| - 1]) then |s|
    else
      var i := EndNonSpace(s[..|s| - 1]);
      assert s[i..] == s[..|s| - 1][i..] + [s[|s| - 1]];
      i
  }

  function TrimWhitespace(s: string): string {
    var first, last := FirstNonSpace(s), EndNonSpace(s);
    if last <= first then "" else s[first..last]
  }

  predicate Trimmed(s: string) {
    s == [] || (!IsSpace(s[0]) && !IsSpace(s[|s| - 1]))
  }

  /** Trimming is the one way to take white space off both ends and leave none there. */
  lemma TrimIsUnique(s: string, a: string, t: string, b: string)
    requires s == a + t + b && AllSpace(a) && AllSpace(b) && Trimmed(t)
    ensures TrimWhitespace(s) == t
  {
    var first, last := FirstNonSpace(s), EndNonSpace(s);
    hide FirstNonSpace, EndNonSpace, IsSpace;
    if t == [] {
      assert AllSpace(s);
      assert first == |s|;
    } else {
      assert s[|a|] == t[0] && s[|a| + |t| - 1] == t[|t| - 1];
      assert first <= |a| && last >= |a| + |t|;
      assert first == |a| && last == |a| + |t|;
    }
  }

  lemma TrimSplits(s: string) returns (a: string, b: string)
    ensures s == a + TrimWhitespace(s) + b && AllSpace(a) && AllSpace(b)
    ensures Trimmed(TrimWhitespace(s))
  {
    var first, last := FirstNonSpace(s), EndNonSpace(s);
    hide FirstNonSpace, EndNonSpace, AllSpace, IsSpace;
    if last <= first {
      assert first == |s| by { NothingBetween(s, first, last); }
      assert s[..first] == s == s + "" + "";
      a, b := s, "";
      assert AllSpace(b) by { NoSpaceNeeded(); }
    } else {
      var t := s[first..last];
      assert t[0] == s[first] && t[|t| - 1] == s[last - 1];
      a, b := s[..first], s[last..];
      assert s == a + t + b;
    }
  }

  lemma NothingBetween(s: string, first: nat, last: nat)
    requires last <= first <= |s| && AllSpace(s[last..]) && (first < |s| ==> !IsSpace(s[first]))
    ensures first == |s|
  {
    hide IsSpace;
    assert forall i :: last <= i < |s| ==> s[i] == s[last..][i - last];
  }

  lemma NoSpaceNeeded()
    ensures AllSpace("")
  {
  }
}
